/**
 * What each form of the query language means (`lib/scm.c` 1231-1582), by what its parts mean and
 * without fuel. As an expression has one meaning at most (SchemeForms.OneMeaning), each rule says
 * what it is.
 */
module SchemeRules {
  import opened Options
  import opened SchemeValues
  import opened SchemeEval
  import opened SchemeForms

  function Special(name: string, form: Form, ops: Val): Val {
    Pair(Sym(name, Syntax(form)), ops)
  }

  /** What a body means: its expressions one after the other. */
  ghost predicate BodyMeans(fns: Natives, body: Val, env: Env, st: Store, r: Out<Val>) {
    Means(fns, Special("begin", Begin, body), env, st, r)
  }

  /** The expressions one after the other, each in the store that the one before it has left. */
  ghost predicate InTurn(fns: Natives, xs: seq<Val>, env: Env, sts: seq<Store>, vs: seq<Val>) {
    && |vs| == |xs| && |sts| == |xs| + 1
    && forall i, k :: 0 <= i < |xs| && k == i + 1 ==> Means(fns, xs[i], env, sts[i], Ok(vs[i], sts[k]))
  }

  // ---------------------------------------------------------------- forms and fuel

  lemma EvalSpecial(fns: Natives, f: nat, name: string, form: Form, ops: Val, env: Env, st: Store)
    requires f > 0
    ensures
      SchemeEval.Eval(fns, f, Special(name, form, ops), env, st) == EvalForm(fns, f - 1, form, ops, env, st)
  {}

  /** A form means what it gives with some fuel. */
  lemma FormMeans(fns: Natives, f: nat, name: string, form: Form, ops: Val, env: Env, st: Store, r: Out<Val>)
    requires EvalForm(fns, f, form, ops, env, st) == r && !r.OutOfFuel?
    ensures Means(fns, Special(name, form, ops), env, st, r)
  {
    hide SchemeEval.Eval, EvalForm;
    EvalSpecial(fns, f + 1, name, form, ops, env, st);
    MeaningAt(fns, f + 1, Special(name, form, ops), env, st, r);
  }

  /** A form that means something gives it with all fuel from some amount on. */
  lemma FormFuel(fns: Natives, name: string, form: Form, ops: Val, env: Env, st: Store, r: Out<Val>) returns (n: nat)
    requires Means(fns, Special(name, form, ops), env, st, r)
    ensures forall f: nat :: f >= n ==> EvalForm(fns, f, form, ops, env, st) == r
  {
    hide SchemeEval.Eval, EvalForm;
    n := EnoughFuel(fns, Special(name, form, ops), env, st, r);
    forall f: nat | f >= n ensures EvalForm(fns, f, form, ops, env, st) == r {
      EvalSpecial(fns, f + 1, name, form, ops, env, st);
      assert SchemeEval.Eval(fns, f + 1, Special(name, form, ops), env, st) == r;
    }
  }

  lemma BodyFuel(fns: Natives, body: Val, env: Env, st: Store, r: Out<Val>) returns (n: nat)
    requires BodyMeans(fns, body, env, st, r)
    ensures forall f: nat :: f >= n ==> EvalBody(fns, f, body, env, st) == r
  {
    hide SchemeEval.Eval, EvalBody;
    var n0 := FormFuel(fns, "begin", Begin, body, env, st, r);
    n := n0 + 1;
    forall f: nat | f >= n ensures EvalBody(fns, f, body, env, st) == r {
      assert EvalForm(fns, f, Begin, body, env, st) == r;
    }
  }

  // ---------------------------------------------------------------- expressions

  lemma ConstantRule(fns: Natives, code: Val, env: Env, st: Store)
    requires !code.Sym? && !code.Pair?
    ensures Means(fns, code, env, st, Ok(code, st))
  {
    MeaningAt(fns, 1, code, env, st, Ok(code, st));
  }

  /** A keyword stands for itself. */
  lemma KeywordRule(fns: Natives, x: Val, env: Env, st: Store)
    requires x.Sym? && |x.name| > 0 && x.name[0] == ':'
    ensures Means(fns, x, env, st, Ok(x, st))
  {
    MeaningAt(fns, 1, x, env, st, Ok(x, st));
  }

  /** A variable has the value of its first binding in the innermost frame, if there is one. */
  lemma VariableRule(fns: Natives, x: Val, i: nat, env: Env, st: Store)
    requires x.Sym? && !(|x.name| > 0 && x.name[0] == ':') && env.frame < |st| && i < |st[env.frame]|
    requires st[env.frame][i].name == x && forall j :: 0 <= j < i ==> st[env.frame][j].name != x
    ensures Means(fns, x, env, st, Ok(st[env.frame][i].val, st))
  {
    assert IndexIn(FrameAt(st, env.frame), x) == i;
    assert Find(x, env, st) == Some(Place(env.frame, i));
    MeaningAt(fns, 1, x, env, st, Ok(st[env.frame][i].val, st));
  }

  /** Without a binding there it is what it is in the frames around. */
  lemma OuterRule(fns: Natives, x: Val, env: Env, st: Store, r: Out<Val>)
    requires x.Sym? && env.Inner? && !Binds(st, env.frame, x)
    ensures Means(fns, x, env, st, r) <==> Means(fns, x, env.outer, st, r)
  {
    IndexIs(st, env.frame, x);
    assert Find(x, env, st) == Find(x, env.outer, st);
    forall f: nat ensures SchemeEval.Eval(fns, f, x, env, st) == SchemeEval.Eval(fns, f, x, env.outer, st) {}
  }

  /** What no frame binds is an error, but for the names of functions, which stand for themselves. */
  lemma UnboundRule(fns: Natives, x: Val, env: Env, st: Store)
    requires x.Sym? && !(|x.name| > 0 && x.name[0] == ':') && env.Global? && !Binds(st, env.frame, x)
    ensures Means(fns, x, env, st, if x.role.Proc? || x.role.Native? then Ok(x, st) else Failed)
  {
    IndexIs(st, env.frame, x);
    MeaningAt(fns, 1, x, env, st, SchemeEval.Eval(fns, 1, x, env, st));
  }

  lemma QuoteRule(fns: Natives, name: string, v: Val, env: Env, st: Store)
    ensures Means(fns, Special(name, Quote, Pair(v, Nil)), env, st, Ok(v, st))
  {
    FormMeans(fns, 1, name, Quote, Pair(v, Nil), env, st, Ok(v, st));
  }

  // ---------------------------------------------------------------- sequences and branches

  /** (begin x) is x, and (begin x y ...) is (begin y ...) after x. */
  lemma BeginRule(fns: Natives, x: Val, rest: Val, env: Env, st: Store, v: Val, st1: Store, r: Out<Val>)
    requires Means(fns, x, env, st, Ok(v, st1))
    requires if rest == Nil then r == Ok(v, st1) else BodyMeans(fns, rest, env, st1, r)
    ensures BodyMeans(fns, Pair(x, rest), env, st, r)
  {
    hide SchemeEval.Eval, EvalBody;
    var n := EnoughFuel(fns, x, env, st, Ok(v, st1));
    var m := 0;
    if rest != Nil {
      m := BodyFuel(fns, rest, env, st1, r);
    }
    BodyStep(fns, n + m + 1, x, rest, env, st);
    FormMeans(fns, n + m + 1, "begin", Begin, Pair(x, rest), env, st, r);
  }

  lemma BodyStep(fns: Natives, f: nat, x: Val, rest: Val, env: Env, st: Store)
    requires f > 0
    ensures
      EvalForm(fns, f, Begin, Pair(x, rest), env, st) ==
        match SchemeEval.Eval(fns, f - 1, x, env, st)
        case Ok(v, st1) => if rest == Nil then Ok(v, st1) else EvalBody(fns, f - 1, rest, env, st1)
        case r => r
  {}

  lemma IfStep(fns: Natives, f: nat, x: Val, rest: Val, env: Env, st: Store)
    requires f > 0 && rest.Pair? && HasParts(rest.cdr)
    ensures
      EvalForm(fns, f, If, Pair(x, rest), env, st) ==
        match SchemeEval.Eval(fns, f - 1, x, env, st)
        case Ok(v, st1) => SchemeEval.Eval(fns, f - 1, if IsTrue(v) then rest.car else Car(rest.cdr), env, st1)
        case r => r
  {}

  lemma CondStep(fns: Natives, f: nat, x: Val, body: Val, rest: Val, env: Env, st: Store)
    requires f > 1
    ensures
      EvalForm(fns, f, Cond, Pair(Pair(x, body), rest), env, st) ==
        match SchemeEval.Eval(fns, f - 1, x, env, st)
        case Ok(v, st1) =>
          if IsTrue(v) then if body == Nil then Ok(v, st1) else EvalBody(fns, f - 1, body, env, st1)
          else if rest == Nil then Ok(Nil, st1)
          else EvalCond(fns, f - 1, rest, env, st1)
        case r => r
  {
    assert EvalForm(fns, f, Cond, Pair(Pair(x, body), rest), env, st) ==
        EvalCond(fns, f, Pair(Pair(x, body), rest), env, st);
  }

  lemma ConnectAt(fns: Natives, f: nat, c: Connective, x: Val, rest: Val, env: Env, st: Store)
    requires f > 1
    ensures
      EvalForm(fns, f, Connect(c), Pair(x, rest), env, st) ==
        match SchemeEval.Eval(fns, f - 1, x, env, st)
        case Ok(v, st1) =>
          if Settles(c, v) || rest == Nil then Ok(v, st1) else EvalConnect(fns, f - 1, c, rest, env, st1)
        case r => r
  {
    assert EvalForm(fns, f, Connect(c), Pair(x, rest), env, st) == EvalConnect(fns, f, c, Pair(x, rest), env, st);
  }

  /** (if x y z): z after #f and after the empty list, and y after anything else. */
  lemma IfRule(fns: Natives, name: string, x: Val, y: Val, z: Val, env: Env, st: Store, v: Val, st1: Store, r: Out<Val>)
    requires Means(fns, x, env, st, Ok(v, st1))
    requires Means(fns, if v == Nil || v == Bool(false) then z else y, env, st1, r)
    ensures Means(fns, Special(name, If, Pair(x, Pair(y, Pair(z, Nil)))), env, st, r)
  {
    var n := EnoughFuel(fns, x, env, st, Ok(v, st1));
    var m := EnoughFuel(fns, if v == Nil || v == Bool(false) then z else y, env, st1, r);
    var ops := Pair(x, Pair(y, Pair(z, Nil)));
    IfStep(fns, n + m + 1, x, ops.cdr, env, st);
    FormMeans(fns, n + m + 1, name, If, ops, env, st, r);
  }

  /** (if x y) is the empty list when x is not true. */
  lemma IfNoElse(fns: Natives, name: string, x: Val, y: Val, env: Env, st: Store, v: Val, st1: Store)
    requires Means(fns, x, env, st, Ok(v, st1)) && (v == Nil || v == Bool(false))
    ensures Means(fns, Special(name, If, Pair(x, Pair(y, Nil))), env, st, Ok(Nil, st1))
  {
    var n := EnoughFuel(fns, x, env, st, Ok(v, st1));
    var ops := Pair(x, Pair(y, Nil));
    IfStep(fns, n + 2, x, ops.cdr, env, st);
    assert SchemeEval.Eval(fns, n + 1, Nil, env, st1) == Ok(Nil, st1);
    FormMeans(fns, n + 2, name, If, ops, env, st, Ok(Nil, st1));
  }

  /** A clause (x body ...) of a cond, and the clauses after it; without a body the clause gives the value of x. */
  lemma CondRule(fns: Natives, name: string, x: Val, body: Val, rest: Val, env: Env, st: Store, v: Val, st1: Store,
                 r: Out<Val>)
    requires Means(fns, x, env, st, Ok(v, st1)) && (rest == Nil || rest.Pair?)
    requires
      if v == Nil || v == Bool(false) then
        if rest == Nil then r == Ok(Nil, st1) else Means(fns, Special(name, Cond, rest), env, st1, r)
      else if body == Nil then r == Ok(v, st1)
      else BodyMeans(fns, body, env, st1, r)
    ensures Means(fns, Special(name, Cond, Pair(Pair(x, body), rest)), env, st, r)
  {
    hide SchemeEval.Eval, EvalBody;
    var n := EnoughFuel(fns, x, env, st, Ok(v, st1));
    var m := 0;
    if v == Nil || v == Bool(false) {
      if rest != Nil {
        m := FormFuel(fns, name, Cond, rest, env, st1, r);
        assert EvalForm(fns, n + m + 1, Cond, rest, env, st1) == EvalCond(fns, n + m + 1, rest, env, st1);
      }
    } else if body != Nil {
      m := BodyFuel(fns, body, env, st1, r);
    }
    var ops := Pair(Pair(x, body), rest);
    CondStep(fns, n + m + 2, x, body, rest, env, st);
    FormMeans(fns, n + m + 2, name, Cond, ops, env, st, r);
  }

  // ---------------------------------------------------------------- and, or

  /** Does this operand end the form? #f ends an and; all but #f and the empty list end an or. */
  lemma ConnectStep(fns: Natives, name: string, c: Connective, x: Val, rest: Val, env: Env, st: Store, v: Val,
                    st1: Store, r: Out<Val>)
    requires Means(fns, x, env, st, Ok(v, st1)) && HasParts(rest)
    requires
      if rest == Nil || (if c == And then v == Bool(false) else v != Nil && v != Bool(false)) then r == Ok(v, st1)
      else Means(fns, Special(name, Connect(c), rest), env, st1, r)
    ensures Means(fns, Special(name, Connect(c), Pair(x, rest)), env, st, r)
  {
    hide SchemeEval.Eval;
    var n := EnoughFuel(fns, x, env, st, Ok(v, st1));
    var m := 0;
    if rest != Nil && !Settles(c, v) {
      m := FormFuel(fns, name, Connect(c), rest, env, st1, r);
      assert EvalForm(fns, n + m + 1, Connect(c), rest, env, st1) == EvalConnect(fns, n + m + 1, c, rest, env, st1);
    }
    ConnectAt(fns, n + m + 2, c, x, rest, env, st);
    FormMeans(fns, n + m + 2, name, Connect(c), Pair(x, rest), env, st, r);
  }

  /**
   * The value of an and form is that of the first operand with the value #f; the value of an or form is
   * that of the first operand with a value other than #f and the empty list; if there is none it is that
   * of the last operand. The operands behind it are not evaluated.
   */
  lemma {:induction false} ConnectRule(fns: Natives, name: string, c: Connective, xs: seq<Val>, n: nat, env: Env,
                                       sts: seq<Store>, vs: seq<Val>)
    requires n < |xs| && InTurn(fns, xs[..n + 1], env, sts, vs)
    requires forall i :: 0 <= i < n ==> if c == And then vs[i] != Bool(false) else vs[i] == Nil || vs[i] == Bool(false)
    requires n == |xs| - 1 || if c == And then vs[n] == Bool(false) else vs[n] != Nil && vs[n] != Bool(false)
    ensures Means(fns, Special(name, Connect(c), ListOf(xs)), env, sts[0], Ok(vs[n], sts[n + 1]))
    decreases n
  {
    hide Means;
    assert xs[..n + 1][0] == xs[0];
    assert ListOf(xs) == Pair(xs[0], ListOf(xs[1..]));
    assert Means(fns, xs[0], env, sts[0], Ok(vs[0], sts[1]));
    if n > 0 {
      assert xs[..n + 1][1..] == xs[1..][..n];
      TurnRest(fns, xs[..n + 1], env, sts, vs);
      ConnectRule(fns, name, c, xs[1..], n - 1, env, sts[1..], vs[1..]);
    }
    ConnectStep(fns, name, c, xs[0], ListOf(xs[1..]), env, sts[0], vs[0], sts[1], Ok(vs[n], sts[n + 1]));
  }

  /** Without operands, `and` is #t and `or` is #f. */
  lemma ConnectEmpty(fns: Natives, name: string, c: Connective, env: Env, st: Store)
    ensures Means(fns, Special(name, Connect(c), Nil), env, st, Ok(if c == And then Bool(true) else Bool(false), st))
  {
    FormMeans(fns, 1, name, Connect(c), Nil, env, st, Ok(Bool(c == And), st));
  }

  lemma TurnRest(fns: Natives, xs: seq<Val>, env: Env, sts: seq<Store>, vs: seq<Val>)
    requires InTurn(fns, xs, env, sts, vs) && |xs| > 0
    ensures InTurn(fns, xs[1..], env, sts[1..], vs[1..]) && Means(fns, xs[0], env, sts[0], Ok(vs[0], sts[1]))
  {
    hide Means;
    var ys, us, ts := xs[1..], vs[1..], sts[1..];
    forall i, k | 0 <= i < |ys| && k == i + 1 ensures Means(fns, ys[i], env, ts[i], Ok(us[i], ts[k])) {
      assert xs[i + 1] == ys[i] && sts[i + 1] == ts[i] && sts[k + 1] == ts[k];
    }
  }

  // ---------------------------------------------------------------- frames of parameters and of let

  /** The names with their values, the last one in front. */
  function Bindings(names: seq<Val>, vs: seq<Val>): (fr: Frame)
    requires |names| <= |vs|
    ensures |fr| == |names|
  {
    var n := |names|;
    seq(n, i requires 0 <= i < n => Binding(names[n - 1 - i], vs[n - 1 - i]))
  }

  lemma BindingsStep(names: seq<Val>, vs: seq<Val>, fr: Frame)
    requires 0 < |names| <= |vs|
    ensures Bindings(names, vs) + fr == Bindings(names[1..], vs[1..]) + ([Binding(names[0], vs[0])] + fr)
  {}

  /** Parameters are bound to the arguments in turn; arguments too many are left out, and too few are an error. */
  lemma {:induction false} ParamsBound(names: seq<Val>, vs: seq<Val>, fr: Frame)
    ensures
      BindArgs(ListOf(names), ListOf(vs), fr) == if |names| <= |vs| then Bound(Bindings(names, vs) + fr) else Few
  {
    if |names| == 0 {
      assert Bindings(names, vs) + fr == fr;
    } else if |vs| > 0 {
      ParamsBound(names[1..], vs[1..], [Binding(names[0], vs[0])] + fr);
      if |names| <= |vs| {
        BindingsStep(names, vs, fr);
      }
    }
  }

  /** ((name x) ...) */
  function LetList(names: seq<Val>, xs: seq<Val>): Val
    requires |names| == |xs|
  {
    if |names| == 0 then Nil else Pair(Pair(names[0], Pair(xs[0], Nil)), LetList(names[1..], xs[1..]))
  }

  lemma {:induction false} LetBound(names: seq<Val>, xs: seq<Val>, vs: seq<Val>, fr: Frame)
    requires |names| == |xs| == |vs|
    ensures LetFrame(LetList(names, xs), ListOf(vs), fr) == Bindings(names, vs) + fr
  {
    if |names| == 0 {
      assert Bindings(names, vs) + fr == fr;
    } else {
      LetBound(names[1..], xs[1..], vs[1..], [Binding(names[0], vs[0])] + fr);
      BindingsStep(names, vs, fr);
    }
  }

  lemma {:induction false} LetNames(names: seq<Val>, xs: seq<Val>)
    requires |names| == |xs|
    ensures Names(LetList(names, xs)) == ListOf(names)
  {
    if |names| > 0 {
      LetNames(names[1..], xs[1..]);
    }
  }

  /** Is `list` made of the expressions `xs`, as the operands of an application or the bindings of a let? */
  ghost predicate Made(kind: Kind, list: Val, names: seq<Val>, xs: seq<Val>) {
    if kind == Operands then list == ListOf(xs) else |names| == |xs| && list == LetList(names, xs)
  }

  lemma {:induction false} ItemsFuel(fns: Natives, kind: Kind, list: Val, names: seq<Val>, xs: seq<Val>, env: Env,
                                     sts: seq<Store>, vs: seq<Val>) returns (n: nat)
    requires Made(kind, list, names, xs) && InTurn(fns, xs, env, sts, vs)
    ensures forall f: nat :: f >= n ==> EvalItems(fns, f, kind, list, env, sts[0]) == Ok(vs, sts[|xs|])
    decreases |xs|
  {
    hide Means, SchemeEval.Eval;
    if |xs| == 0 {
      n := 1;
      assert vs == [];
    } else {
      TurnRest(fns, xs, env, sts, vs);
      var n1 := EnoughFuel(fns, xs[0], env, sts[0], Ok(vs[0], sts[1]));
      var ns := if |names| == 0 then [] else names[1..];
      var n2 := ItemsFuel(fns, kind, list.cdr, ns, xs[1..], env, sts[1..], vs[1..]);
      n := n1 + n2 + 1;
      forall f: nat | f >= n ensures EvalItems(fns, f, kind, list, env, sts[0]) == Ok(vs, sts[|xs|]) {
        assert ItemOf(kind, list.car) == Some(xs[0]);
        assert SchemeEval.Eval(fns, f - 1, xs[0], env, sts[0]) == Ok(vs[0], sts[1]);
        assert EvalItems(fns, f - 1, kind, list.cdr, env, sts[1]) == Ok(vs[1..], sts[|xs|]);
        assert vs == [vs[0]] + vs[1..];
      }
    }
  }

  // ---------------------------------------------------------------- application

  lemma LambdaRule(fns: Natives, name: string, params: Val, body: Val, env: Env, st: Store)
    ensures
      Means(fns, Special(name, Lambda, Pair(params, body)), env, st, Ok(Closure(Pair(params, body), env, false), st))
  {
    FormMeans(fns, 1, name, Lambda, Pair(params, body), env, st, Ok(Closure(Pair(params, body), env, false), st));
  }

  lemma CallStep(fns: Natives, g: nat, op: Val, rest: Val, env: Env, st: Store)
    requires !IsSyntax(op)
    ensures
      SchemeEval.Eval(fns, g + 1, Pair(op, rest), env, st) ==
        match SchemeEval.Eval(fns, g, op, env, st)
        case Ok(f, st1) => EvalApplied(fns, g, f, rest, env, st1)
        case r => r
  {}

  lemma AppliedStep(fns: Natives, g: nat, f: Val, rest: Val, env: Env, st: Store, args: seq<Val>, st1: Store)
    requires EvalItems(fns, g, Operands, rest, env, st) == Ok(args, st1)
    ensures EvalApplied(fns, g, f, rest, env, st) == Apply(fns, g, f, ListOf(args), env, st1)
  {}

  /** Operator and operands are evaluated, and then the function is applied. */
  lemma CallMeans(fns: Natives, op: Val, f: Val, xs: seq<Val>, env: Env, st: Store, sts: seq<Store>, vs: seq<Val>,
                  k: nat, r: Out<Val>)
    requires InTurn(fns, xs, env, sts, vs) && !(op.Sym? && op.role.Syntax?) && Means(fns, op, env, st, Ok(f, sts[0]))
    requires !r.OutOfFuel? && forall g: nat :: g >= k ==> Apply(fns, g, f, ListOf(vs), env, sts[|xs|]) == r
    ensures Means(fns, Pair(op, ListOf(xs)), env, st, r)
  {
    hide Means, Apply, EvalItems, EvalApplied, SchemeEval.Eval;
    var n := EnoughFuel(fns, op, env, st, Ok(f, sts[0]));
    var m := ItemsFuel(fns, Operands, ListOf(xs), [], xs, env, sts, vs);
    var g := n + m + k;
    assert EvalItems(fns, g, Operands, ListOf(xs), env, sts[0]) == Ok(vs, sts[|xs|]);
    AppliedStep(fns, g, f, ListOf(xs), env, sts[0], vs, sts[|xs|]);
    CallStep(fns, g, op, ListOf(xs), env, st);
    MeaningAt(fns, g + 1, Pair(op, ListOf(xs)), env, st, r);
  }

  lemma ClosureStep(fns: Natives, k: nat, names: seq<Val>, body: Val, cenv: Env, promise: bool, vs: seq<Val>, env: Env,
                    st: Store)
    requires k > 0 && |names| <= |vs|
    ensures
      Apply(fns, k, Closure(Pair(ListOf(names), body), cenv, promise), ListOf(vs), env, st) ==
        EvalBody(fns, k - 1, body, Inner(|st|, cenv), st + [Bindings(names, vs)])
  {
    hide EvalBody;
    ParamsBound(names, vs, []);
    assert Bindings(names, vs) + [] == Bindings(names, vs);
  }

  /**
   * A closure: its body in a new frame, in which its parameters have the arguments as values, inside the
   * environment in which it was made.
   */
  lemma ApplyRule(fns: Natives, op: Val, names: seq<Val>, body: Val, cenv: Env, promise: bool, xs: seq<Val>, env: Env,
                  st: Store, sts: seq<Store>, vs: seq<Val>, r: Out<Val>)
    requires !(op.Sym? && op.role.Syntax?) && InTurn(fns, xs, env, sts, vs) && |names| <= |xs|
    requires Means(fns, op, env, st, Ok(Closure(Pair(ListOf(names), body), cenv, promise), sts[0]))
    requires
      var st1 := sts[|xs|];
      BodyMeans(fns, body, Inner(|st1|, cenv), st1 + [Bindings(names, vs)], r)
    ensures Means(fns, Pair(op, ListOf(xs)), env, st, r)
  {
    hide Means, EvalBody, Apply;
    var f, st1 := Closure(Pair(ListOf(names), body), cenv, promise), sts[|xs|];
    var n := BodyFuel(fns, body, Inner(|st1|, cenv), st1 + [Bindings(names, vs)], r);
    forall g: nat | g >= n + 1 ensures Apply(fns, g, f, ListOf(vs), env, st1) == r {
      ClosureStep(fns, g, names, body, cenv, promise, vs, env, st1);
    }
    NotOut(fns, body, Inner(|st1|, cenv), st1 + [Bindings(names, vs)], r);
    CallMeans(fns, op, f, xs, env, st, sts, vs, n + 1, r);
  }

  lemma NotOut(fns: Natives, body: Val, env: Env, st: Store, r: Out<Val>)
    requires BodyMeans(fns, body, env, st, r)
    ensures !r.OutOfFuel?
  {}

  /** Too few arguments are an error, and so is what is no function. */
  lemma ApplyFails(fns: Natives, op: Val, f: Val, names: seq<Val>, body: Val, cenv: Env, promise: bool, xs: seq<Val>,
                   env: Env, st: Store, sts: seq<Store>, vs: seq<Val>)
    requires InTurn(fns, xs, env, sts, vs) && !(op.Sym? && op.role.Syntax?) && Means(fns, op, env, st, Ok(f, sts[0]))
    requires
      || (f == Closure(Pair(ListOf(names), body), cenv, promise) && |xs| < |names|)
      || (!f.Closure? && !(f.Sym? && (f.role.Native? || f.role.Proc?)))
    ensures Means(fns, Pair(op, ListOf(xs)), env, st, Failed)
  {
    hide Means, EvalBody;
    if f.Closure? {
      ParamsBound(names, vs, []);
    }
    CallMeans(fns, op, f, xs, env, st, sts, vs, 1, Failed);
  }

  /** A native function gives what it gives, or fails. */
  lemma NativeRule(fns: Natives, op: Val, name: string, xs: seq<Val>, env: Env, st: Store, sts: seq<Store>,
                   vs: seq<Val>)
    requires InTurn(fns, xs, env, sts, vs) && !(op.Sym? && op.role.Syntax?)
    requires Means(fns, op, env, st, Ok(Sym(name, Native), sts[0]))
    ensures
      var r := fns(name, ListOf(vs));
      Means(fns, Pair(op, ListOf(xs)), env, st, if r.Some? then Ok(r.value, sts[|xs|]) else Failed)
  {
    hide Means;
    var r := fns(name, ListOf(vs));
    CallMeans(fns, op, Sym(name, Native), xs, env, st, sts, vs, 1, if r.Some? then Ok(r.value, sts[|xs|]) else Failed);
  }

  /** (eval x): what the value of x means. */
  lemma EvalRule(fns: Natives, op: Val, name: string, x: Val, env: Env, st: Store, sts: seq<Store>, v: Val, r: Out<Val>)
    requires InTurn(fns, [x], env, sts, [v]) && Means(fns, v, env, sts[1], r)
    requires !(op.Sym? && op.role.Syntax?) && Means(fns, op, env, st, Ok(Sym(name, Proc(PEval)), sts[0]))
    ensures Means(fns, Pair(op, ListOf([x])), env, st, r)
  {
    hide SchemeEval.Eval;
    var n := EnoughFuel(fns, v, env, sts[1], r);
    var f := Sym(name, Proc(PEval));
    assert ListOf([v]) == Pair(v, Nil);
    forall g: nat | g >= n + 1 ensures Apply(fns, g, f, ListOf([v]), env, sts[1]) == r {
      assert SchemeEval.Eval(fns, g - 1, v, env, sts[1]) == r;
    }
    CallMeans(fns, op, f, [x], env, st, sts, [v], n + 1, r);
  }

  /** (force x): the body of a promise, in a new frame inside its environment; other values stay as they are. */
  lemma ForceRule(fns: Natives, op: Val, name: string, x: Val, env: Env, st: Store, sts: seq<Store>, v: Val,
                  r: Out<Val>)
    requires InTurn(fns, [x], env, sts, [v])
    requires !(op.Sym? && op.role.Syntax?) && Means(fns, op, env, st, Ok(Sym(name, Proc(Force)), sts[0]))
    requires v.Closure? && v.promise ==> v.code.Pair? && v.code.car == Nil
    requires
      var st1 := sts[1];
      if v.Closure? && v.promise then BodyMeans(fns, v.code.cdr, Inner(|st1|, v.env), st1 + [[]], r)
      else r == Ok(v, st1)
    ensures Means(fns, Pair(op, ListOf([x])), env, st, r)
  {
    hide SchemeEval.Eval, EvalBody;
    var f, st1 := Sym(name, Proc(Force)), sts[1];
    assert ListOf([v]) == Pair(v, Nil);
    if v.Closure? && v.promise {
      var n := BodyFuel(fns, v.code.cdr, Inner(|st1|, v.env), st1 + [[]], r);
      forall g: nat | g >= n + 2 ensures Apply(fns, g, f, ListOf([v]), env, st1) == r {
        assert Apply(fns, g - 1, v, Nil, env, st1) == EvalBody(fns, g - 2, v.code.cdr, Inner(|st1|, v.env), st1 + [[]]);
      }
      CallMeans(fns, op, f, [x], env, st, sts, [v], n + 2, r);
    } else {
      CallMeans(fns, op, f, [x], env, st, sts, [v], 1, r);
    }
  }

  lemma ListOfTwo(a: Val, b: Val)
    ensures ListOf([a, b]) == Pair(a, Pair(b, Nil))
  {
    assert [a, b][1..] == [b];
    assert ListOf([b]) == Pair(b, Nil);
  }

  lemma ApplyListStep(fns: Natives, k: nat, name: string, f: Val, args: Val, env: Env, st: Store)
    requires k > 0 && IsList(args)
    ensures
      Apply(fns, k, Sym(name, Proc(PApply)), Pair(f, Pair(args, Nil)), env, st) == Apply(fns, k - 1, f, args, env, st)
  {}

  /** (apply f x): the closure f with the elements of the list x as its arguments. */
  lemma ApplyListRule(fns: Natives, op: Val, name: string, xs: seq<Val>, env: Env, st: Store, sts: seq<Store>,
                      names: seq<Val>, body: Val, cenv: Env, promise: bool, vs: seq<Val>, r: Out<Val>)
    requires |xs| == 2 && |names| <= |vs|
    requires InTurn(fns, xs, env, sts, [Closure(Pair(ListOf(names), body), cenv, promise), ListOf(vs)])
    requires !(op.Sym? && op.role.Syntax?) && Means(fns, op, env, st, Ok(Sym(name, Proc(PApply)), sts[0]))
    requires
      var st1 := sts[2];
      BodyMeans(fns, body, Inner(|st1|, cenv), st1 + [Bindings(names, vs)], r)
    ensures Means(fns, Pair(op, ListOf(xs)), env, st, r)
  {
    hide Means, EvalBody, Apply, ListOf;
    var f, g, st1 := Sym(name, Proc(PApply)), Closure(Pair(ListOf(names), body), cenv, promise), sts[2];
    var n := BodyFuel(fns, body, Inner(|st1|, cenv), st1 + [Bindings(names, vs)], r);
    NotOut(fns, body, Inner(|st1|, cenv), st1 + [Bindings(names, vs)], r);
    ListOfTwo(g, ListOf(vs));
    forall k: nat | k >= n + 2 ensures Apply(fns, k, f, ListOf([g, ListOf(vs)]), env, st1) == r {
      ApplyListStep(fns, k, name, g, ListOf(vs), env, st1);
      ClosureStep(fns, k - 1, names, body, cenv, promise, vs, env, st1);
    }
    CallMeans(fns, op, f, xs, env, st, sts, [g, ListOf(vs)], n + 2, r);
  }

  lemma FormStops(fns: Natives, f: nat, form: Form, x: Val, rest: Val, env: Env, st: Store)
    requires f > 1 && (form.Begin? || form.If? || form.Connect? || form.Stream?)
    requires !SchemeEval.Eval(fns, f - 1, x, env, st).Ok?
    ensures EvalForm(fns, f, form, Pair(x, rest), env, st) == SchemeEval.Eval(fns, f - 1, x, env, st)
  {
    match form
    case Begin => BodyStep(fns, f, x, rest, env, st);
    case If => assert EvalForm(fns, f, form, Pair(x, rest), env, st) == EvalIf(fns, f, Pair(x, rest), env, st);
    case Connect(c) => ConnectAt(fns, f, c, x, rest, env, st);
    case Stream => assert EvalForm(fns, f, form, Pair(x, rest), env, st) == EvalStream(fns, f, Pair(x, rest), env, st);
  }

  /** An error in the first expression of a form, or in the operator, is the error of the whole. */
  lemma FirstFails(fns: Natives, op: Val, x: Val, rest: Val, env: Env, st: Store, r: Out<Val>)
    requires Means(fns, x, env, st, r) && !r.Ok?
    requires
      if IsSyntax(op) then
        var form := op.role.form;
        form.Begin? || form.If? || form.Connect? || form.Stream?
      else op == x
    ensures Means(fns, Pair(op, if IsSyntax(op) then Pair(x, rest) else rest), env, st, r)
  {
    var n := EnoughFuel(fns, x, env, st, r);
    if IsSyntax(op) {
      FormStops(fns, n + 2, op.role.form, x, rest, env, st);
      FormMeans(fns, n + 2, op.name, op.role.form, Pair(x, rest), env, st, r);
    } else {
      CallStep(fns, n, op, rest, env, st);
      MeaningAt(fns, n + 1, Pair(op, rest), env, st, r);
    }
  }

  /** ((lambda (x) x) y) is the value of y, whatever x is outside. */
  lemma Shadows(fns: Natives, x: Val, y: Val, env: Env, st: Store, v: Val, st1: Store)
    requires x.Sym? && !(|x.name| > 0 && x.name[0] == ':') && Means(fns, y, env, st, Ok(v, st1))
    ensures
      var f := Special("lambda", Lambda, Pair(Pair(x, Nil), Pair(x, Nil)));
      Means(fns, Pair(f, Pair(y, Nil)), env, st, Ok(v, st1 + [[Binding(x, v)]]))
  {
    hide Means;
    var f := Special("lambda", Lambda, Pair(Pair(x, Nil), Pair(x, Nil)));
    var inner, st2 := Inner(|st1|, env), st1 + [[Binding(x, v)]];
    LambdaRule(fns, "lambda", Pair(x, Nil), Pair(x, Nil), env, st);
    VariableRule(fns, x, 0, inner, st2);
    BeginRule(fns, x, Nil, inner, st2, v, st2, Ok(v, st2));
    assert ListOf([x]) == Pair(x, Nil) && ListOf([y]) == Pair(y, Nil);
    assert Bindings([x], [v]) == [Binding(x, v)];
    ApplyRule(fns, f, [x], Pair(x, Nil), env, false, [y], env, st, [st, st1], [v], Ok(v, st2));
  }

  /** (delay x ...) and (cons-stream x y ...): a promise of the rest. */
  lemma DelayRule(fns: Natives, name: string, body: Val, env: Env, st: Store)
    ensures Means(fns, Special(name, Delay, body), env, st, Ok(Closure(Pair(Nil, body), env, true), st))
  {
    FormMeans(fns, 1, name, Delay, body, env, st, Ok(Closure(Pair(Nil, body), env, true), st));
  }

  lemma StreamRule(fns: Natives, name: string, x: Val, body: Val, env: Env, st: Store, v: Val, st1: Store)
    requires Means(fns, x, env, st, Ok(v, st1))
    ensures
      Means(fns, Special(name, Stream, Pair(x, body)), env, st, Ok(Pair(v, Closure(Pair(Nil, body), env, true)), st1))
  {
    var n := EnoughFuel(fns, x, env, st, Ok(v, st1));
    assert EvalForm(fns, n + 1, Stream, Pair(x, body), env, st) == EvalStream(fns, n + 1, Pair(x, body), env, st);
    FormMeans(fns, n + 1, name, Stream, Pair(x, body), env, st, Ok(Pair(v, Closure(Pair(Nil, body), env, true)), st1));
  }

  // ---------------------------------------------------------------- define and set!

  lemma DefineStep(fns: Natives, f: nat, x: Val, y: Val, env: Env, st: Store)
    requires f > 0 && x.Sym?
    ensures
      EvalForm(fns, f, Define, Pair(x, Pair(y, Nil)), env, st) ==
        match SchemeEval.Eval(fns, f - 1, y, env, st)
        case Ok(v, st1) => Ok(x, DefineIn(st1, env.frame, x, v))
        case r => r
  {}

  lemma SetStep(fns: Natives, f: nat, x: Val, y: Val, env: Env, st: Store)
    requires f > 0
    ensures
      EvalForm(fns, f, Set, Pair(x, Pair(y, Nil)), env, st) ==
        match SchemeEval.Eval(fns, f - 1, y, env, st)
        case Ok(v, st1) => (match Find(x, env, st1) case Some(p) => Ok(v, Assign(st1, p, v)) case None => Failed)
        case r => r
  {}

  /** (define x y): x has the value of y in the current frame (SchemeValues.DefinesOne). */
  lemma DefineRule(fns: Natives, name: string, x: Val, y: Val, env: Env, st: Store, v: Val, st1: Store)
    requires x.Sym? && Means(fns, y, env, st, Ok(v, st1))
    ensures
      Means(fns, Special(name, Define, Pair(x, Pair(y, Nil))), env, st, Ok(x, DefineIn(st1, env.frame, x, v)))
  {
    hide SchemeEval.Eval, DefineIn;
    var ops := Pair(x, Pair(y, Nil));
    var n := EnoughFuel(fns, y, env, st, Ok(v, st1));
    DefineStep(fns, n + 1, x, y, env, st);
    FormMeans(fns, n + 1, name, Define, ops, env, st, Ok(x, DefineIn(st1, env.frame, x, v)));
  }

  /** (define (x . params) body ...) is (define x (lambda params body ...)). */
  lemma DefineFunction(fns: Natives, name: string, x: Val, params: Val, body: Val, env: Env, st: Store)
    requires x.Sym?
    ensures
      Means(fns, Special(name, Define, Pair(Pair(x, params), body)), env, st,
        Ok(x, DefineIn(st, env.frame, x, Closure(Pair(params, body), env, false))))
  {
    hide DefineIn;
    var ops := Pair(Pair(x, params), body);
    var f := Closure(Pair(params, body), env, false);
    var lambda := Pair(LAMBDA, Pair(params, body));
    assert SchemeEval.Eval(fns, 2, lambda, env, st) == Ok(f, st) by {
      EvalSpecial(fns, 2, "lambda", Lambda, Pair(params, body), env, st);
    }
    assert EvalForm(fns, 3, Define, ops, env, st) == EvalDefine(fns, 3, ops, env, st);
    FormMeans(fns, 3, name, Define, ops, env, st, Ok(x, DefineIn(st, env.frame, x, f)));
  }

  /** (set! x y): the binding at which x is found has the value of y, and without one it is an error. */
  lemma SetRule(fns: Natives, name: string, x: Val, y: Val, env: Env, st: Store, v: Val, st1: Store)
    requires Means(fns, y, env, st, Ok(v, st1))
    ensures
      var p := Find(x, env, st1);
      Means(fns, Special(name, Set, Pair(x, Pair(y, Nil))), env, st,
        if p.Some? then Ok(v, Assign(st1, p.value, v)) else Failed)
  {
    hide SchemeEval.Eval, Find, Assign;
    var ops, p := Pair(x, Pair(y, Nil)), Find(x, env, st1);
    var n := EnoughFuel(fns, y, env, st, Ok(v, st1));
    SetStep(fns, n + 1, x, y, env, st);
    FormMeans(fns, n + 1, name, Set, ops, env, st, if p.Some? then Ok(v, Assign(st1, p.value, v)) else Failed);
  }

  // ---------------------------------------------------------------- let

  lemma LetStep(fns: Natives, f: nat, code: Val, env: Env, st: Store, vs: seq<Val>, st1: Store)
    requires f > 0 && code.Pair? && (code.car.Sym? ==> code.cdr.Pair?)
    requires EvalItems(fns, f - 1, Lets, LetBindings(code), env, st) == Ok(vs, st1)
    ensures
      EvalForm(fns, f, Let, code, env, st) ==
        EvalBody(fns, f - 1, LetBody(code), Inner(|st1|, env), LetStore(code, ListOf(vs), env, st1))
  {}

  lemma LetRecStep(fns: Natives, f: nat, list: Val, body: Val, env: Env, st: Store, vs: seq<Val>, st1: Store)
    requires f > 0 && EvalItems(fns, f - 1, LetRecs, list, Inner(|st|, env), st + [[]]) == Ok(vs, st1)
    ensures
      EvalForm(fns, f, LetRec, Pair(list, body), env, st) ==
        EvalBody(fns, f - 1, body, Inner(|st|, env),
          SetFrame(st1, |st|, LetFrame(list, ListOf(vs), FrameAt(st1, |st|))))
  {}

  /** The body of a let, in a new frame with the names and values. */
  lemma LetRule(fns: Natives, name: string, names: seq<Val>, xs: seq<Val>, body: Val, env: Env, sts: seq<Store>,
                vs: seq<Val>, r: Out<Val>)
    requires |names| == |xs| && InTurn(fns, xs, env, sts, vs)
    requires
      var st1 := sts[|xs|];
      BodyMeans(fns, body, Inner(|st1|, env), st1 + [Bindings(names, vs)], r)
    ensures Means(fns, Special(name, Let, Pair(LetList(names, xs), body)), env, sts[0], r)
  {
    hide Means, SchemeEval.Eval, EvalForm, EvalBody, EvalItems;
    var st1, ops := sts[|xs|], Pair(LetList(names, xs), body);
    NotOut(fns, body, Inner(|st1|, env), st1 + [Bindings(names, vs)], r);
    var n := ItemsFuel(fns, Lets, LetList(names, xs), names, xs, env, sts, vs);
    var m := BodyFuel(fns, body, Inner(|st1|, env), st1 + [Bindings(names, vs)], r);
    LetBound(names, xs, vs, []);
    assert Bindings(names, vs) + [] == Bindings(names, vs);
    LetStep(fns, n + m + 1, ops, env, sts[0], vs, st1);
    FormMeans(fns, n + m + 1, name, Let, ops, env, sts[0], r);
  }

  /** A binding that is no list, or the rest of which is none, is an error. */
  lemma LetFails(fns: Natives, name: string, x: Val, rest: Val, body: Val, env: Env, st: Store)
    requires !(x.Nil? || (x.Pair? && (x.cdr.Nil? || x.cdr.Pair?)))
    ensures Means(fns, Special(name, Let, Pair(Pair(x, rest), body)), env, st, Failed)
  {
    var ops := Pair(Pair(x, rest), body);
    assert ItemOf(Lets, x) == None;
    assert EvalItems(fns, 1, Lets, Pair(x, rest), env, st) == Failed;
    assert EvalForm(fns, 2, Let, ops, env, st) == EvalLet(fns, 2, ops, env, st);
    FormMeans(fns, 2, name, Let, ops, env, st, Failed);
  }

  /** A let with a name in front: in the new frame that name is the function of the other names with the same body. */
  lemma NamedLetRule(fns: Natives, name: string, loop: Val, names: seq<Val>, xs: seq<Val>, body: Val, env: Env,
                     sts: seq<Store>, vs: seq<Val>, r: Out<Val>)
    requires loop.Sym? && |names| == |xs| && InTurn(fns, xs, env, sts, vs)
    requires
      var st1 := sts[|xs|];
      var inner := Inner(|st1|, env);
      var f := Closure(Pair(ListOf(names), body), inner, false);
      BodyMeans(fns, body, inner, st1 + [[Binding(loop, f)] + Bindings(names, vs)], r)
    ensures Means(fns, Special(name, Let, Pair(loop, Pair(LetList(names, xs), body))), env, sts[0], r)
  {
    hide Means, SchemeEval.Eval, EvalForm, EvalBody, EvalItems;
    var st1, ops := sts[|xs|], Pair(loop, Pair(LetList(names, xs), body));
    var inner := Inner(|st1|, env);
    var f := Closure(Pair(ListOf(names), body), inner, false);
    var st2 := st1 + [[Binding(loop, f)] + Bindings(names, vs)];
    NotOut(fns, body, inner, st2, r);
    var n := ItemsFuel(fns, Lets, LetList(names, xs), names, xs, env, sts, vs);
    var m := BodyFuel(fns, body, inner, st2, r);
    LetBound(names, xs, vs, []);
    LetNames(names, xs);
    assert Bindings(names, vs) + [] == Bindings(names, vs);
    LetStep(fns, n + m + 1, ops, env, sts[0], vs, st1);
    FormMeans(fns, n + m + 1, name, Let, ops, env, sts[0], r);
  }

  /** A letrec: the expressions are evaluated in the new frame, and the names are added to it at the end. */
  lemma LetRecRule(fns: Natives, name: string, names: seq<Val>, xs: seq<Val>, body: Val, env: Env, st: Store,
                   sts: seq<Store>, vs: seq<Val>, r: Out<Val>)
    requires |names| == |xs| && InTurn(fns, xs, Inner(|st|, env), sts, vs) && sts[0] == st + [[]]
    requires
      var st1 := sts[|xs|];
      && |st| < |st1|
      && BodyMeans(fns, body, Inner(|st|, env), st1[|st| := Bindings(names, vs) + st1[|st|]], r)
    ensures Means(fns, Special(name, LetRec, Pair(LetList(names, xs), body)), env, st, r)
  {
    hide Means, SchemeEval.Eval, EvalForm, EvalBody, EvalItems;
    var st1, ops, inner := sts[|xs|], Pair(LetList(names, xs), body), Inner(|st|, env);
    var st2 := st1[|st| := Bindings(names, vs) + st1[|st|]];
    NotOut(fns, body, inner, st2, r);
    var n := ItemsFuel(fns, LetRecs, LetList(names, xs), names, xs, inner, sts, vs);
    var m := BodyFuel(fns, body, inner, st2, r);
    LetBound(names, xs, vs, st1[|st|]);
    LetRecStep(fns, n + m + 1, LetList(names, xs), body, env, st, vs, st1);
    FormMeans(fns, n + m + 1, name, LetRec, ops, env, st, r);
  }

  // ---------------------------------------------------------------- let*

  /** The value of an expression gets bound in front of frame `k`. */
  ghost predicate BindsNext(fns: Natives, name: Val, x: Val, env: Env, k: nat, st: Store, mid: Store, v: Val,
                            st2: Store)
  {
    && Means(fns, x, env, st, Ok(v, mid)) && k < |mid|
    && st2 == mid[k := [Binding(name, v)] + mid[k]]
  }

  /** The expressions one after the other; each value is bound in frame `k` before the next one. */
  ghost predicate InSteps(fns: Natives, names: seq<Val>, xs: seq<Val>, env: Env, k: nat, sts: seq<Store>,
                          mids: seq<Store>, vs: seq<Val>) {
    && |names| == |xs| == |vs| == |mids| && |sts| == |xs| + 1
    && forall i, n :: 0 <= i < |xs| && n == i + 1 ==>
        BindsNext(fns, names[i], xs[i], env, k, sts[i], mids[i], vs[i], sts[n])
  }

  lemma {:induction false} StarFuel(fns: Natives, names: seq<Val>, xs: seq<Val>, body: Val, env: Env, sts: seq<Store>,
                                    mids: seq<Store>, vs: seq<Val>, r: Out<Val>) returns (n: nat)
    requires InSteps(fns, names, xs, env, env.frame, sts, mids, vs) && BodyMeans(fns, body, env, sts[|xs|], r)
    ensures forall f: nat :: f >= n ==> EvalStarRest(fns, f, LetList(names, xs), body, env, sts[0]) == r
    decreases |xs|
  {
    hide Means, SchemeEval.Eval, EvalBody;
    if |xs| == 0 {
      n := BodyFuel(fns, body, env, sts[0], r);
      n := n + 1;
    } else {
      StepsRest(fns, names, xs, env, env.frame, sts, mids, vs);
      var n1 := EnoughFuel(fns, xs[0], env, sts[0], Ok(vs[0], mids[0]));
      var n2 := StarFuel(fns, names[1..], xs[1..], body, env, sts[1..], mids[1..], vs[1..], r);
      n := n1 + n2 + 1;
      forall f: nat | f >= n ensures EvalStarRest(fns, f, LetList(names, xs), body, env, sts[0]) == r {
        assert SchemeEval.Eval(fns, f - 1, xs[0], env, sts[0]) == Ok(vs[0], mids[0]);
        assert EvalStarRest(fns, f - 1, LetList(names[1..], xs[1..]), body, env, sts[1]) == r;
      }
    }
  }

  lemma StepsRest(fns: Natives, names: seq<Val>, xs: seq<Val>, env: Env, k: nat, sts: seq<Store>, mids: seq<Store>,
                  vs: seq<Val>)
    requires InSteps(fns, names, xs, env, k, sts, mids, vs) && |xs| > 0
    ensures InSteps(fns, names[1..], xs[1..], env, k, sts[1..], mids[1..], vs[1..])
    ensures BindsNext(fns, names[0], xs[0], env, k, sts[0], mids[0], vs[0], sts[1])
  {
    hide BindsNext;
    var ns, ys, ts, ms, us := names[1..], xs[1..], sts[1..], mids[1..], vs[1..];
    forall i, n | 0 <= i < |ys| && n == i + 1 ensures BindsNext(fns, ns[i], ys[i], env, k, ts[i], ms[i], us[i], ts[n]) {
      assert xs[i + 1] == ys[i] && sts[i + 1] == ts[i] && sts[n + 1] == ts[n];
    }
  }

  lemma StarStep(fns: Natives, f: nat, n0: Val, x0: Val, rest: Val, body: Val, env: Env, st: Store, v0: Val, st1: Store)
    requires f > 0 && SchemeEval.Eval(fns, f - 1, x0, env, st) == Ok(v0, st1)
    ensures
      EvalForm(fns, f, LetStar, Pair(Pair(Pair(n0, Pair(x0, Nil)), rest), body), env, st) ==
        EvalStarRest(fns, f - 1, rest, body, Inner(|st1|, env), st1 + [[Binding(n0, v0)]])
  {
    var ops := Pair(Pair(Pair(n0, Pair(x0, Nil)), rest), body);
    assert EvalForm(fns, f, LetStar, ops, env, st) == EvalLetStar(fns, f, ops, env, st);
    assert [Binding(n0, v0)] + [] == [Binding(n0, v0)];
    assert AddTo(st1 + [[]], |st1|, n0, v0) == st1 + [[Binding(n0, v0)]];
  }

  /**
   * A let*: the first expression is evaluated outside the new frame, and every other one in it, with the
   * bindings before it.
   */
  lemma LetStarRule(fns: Natives, name: string, n0: Val, x0: Val, v0: Val, names: seq<Val>, xs: seq<Val>, body: Val,
                    env: Env, st: Store, st1: Store, sts: seq<Store>, mids: seq<Store>, vs: seq<Val>, r: Out<Val>)
    requires Means(fns, x0, env, st, Ok(v0, st1)) && |sts| > 0 && sts[0] == st1 + [[Binding(n0, v0)]]
    requires InSteps(fns, names, xs, Inner(|st1|, env), |st1|, sts, mids, vs)
    requires BodyMeans(fns, body, Inner(|st1|, env), sts[|xs|], r)
    ensures Means(fns, Special(name, LetStar, Pair(LetList([n0] + names, [x0] + xs), body)), env, st, r)
  {
    hide Means, SchemeEval.Eval, EvalForm, EvalStarRest;
    var inner, ops := Inner(|st1|, env), Pair(LetList([n0] + names, [x0] + xs), body);
    assert ([n0] + names)[1..] == names && ([x0] + xs)[1..] == xs;
    NotOut(fns, body, inner, sts[|xs|], r);
    var n := EnoughFuel(fns, x0, env, st, Ok(v0, st1));
    var m := StarFuel(fns, names, xs, body, inner, sts, mids, vs, r);
    StarStep(fns, n + m + 1, n0, x0, LetList(names, xs), body, env, st, v0, st1);
    FormMeans(fns, n + m + 1, name, LetStar, ops, env, st, r);
  }

  /** Without bindings a let* has a new frame only. */
  lemma LetStarEmpty(fns: Natives, name: string, body: Val, env: Env, st: Store, r: Out<Val>)
    requires BodyMeans(fns, body, Inner(|st|, env), st + [[]], r)
    ensures Means(fns, Special(name, LetStar, Pair(Nil, body)), env, st, r)
  {
    hide SchemeEval.Eval, EvalBody;
    var n := BodyFuel(fns, body, Inner(|st|, env), st + [[]], r);
    assert EvalForm(fns, n + 1, LetStar, Pair(Nil, body), env, st) == EvalLetStar(fns, n + 1, Pair(Nil, body), env, st);
    FormMeans(fns, n + 1, name, LetStar, Pair(Nil, body), env, st, r);
  }
}
