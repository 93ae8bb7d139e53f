/**
 * The register machine does what programs mean: from the evaluation of an expression with any
 * dump it comes to a return of the value with that dump, exactly when the expression has a value.
 */
module SchemeSim {
  import opened SchemeValues
  import opened SchemeEval
  import opened SchemeMachine

  /**
   * After `n` steps the machine returns the value to dump `d`, with the bindings that are left;
   * or it has stopped for the same reason; or, when the fuel is not enough, it is still running
   * after at least as many steps.
   */
  ghost predicate Meets(fns: Natives, c: Cfg, n: nat, r: Out<Val>, d: Dump, fuel: nat) {
    match r
    case Ok(v, st) => Steps(fns, n, c) == Return(v, d, st)
    case Failed => Steps(fns, n, c) == Error
    case Wild => Steps(fns, n, c) == Crashed
    case OutOfFuel => n >= fuel && Steps(fns, n, c).Running?
  }

  lemma Join(fns: Natives, c: Cfg, m: nat, c1: Cfg, n: nat, r: Out<Val>, d: Dump, f1: nat, f: nat)
    requires Steps(fns, m, c) == c1 && Meets(fns, c1, n, r, d, f1) && f <= f1 + m
    ensures Meets(fns, c, m + n, r, d, f)
  {
    hide Steps, Return;
    StepsAdd(fns, m, n, c);
  }

  lemma OneStep(fns: Natives, c: Cfg)
    ensures Steps(fns, 1, c) == Next(fns, c)
  {
    hide Next;
    assert Steps(fns, 1, c) == Steps(fns, 0, Next(fns, c));
  }

  /** The next step goes on to `s`. */
  lemma GoOn(fns: Natives, c: Cfg, s: State, n: nat, r: Out<Val>, d: Dump, f: nat)
    requires Next(fns, c) == Running(s) && Meets(fns, Running(s), n, r, d, f)
    ensures Meets(fns, c, 1 + n, r, d, f + 1)
  {
    hide Next, Steps;
    OneStep(fns, c);
    Join(fns, c, 1, Running(s), n, r, d, f, f + 1);
  }

  predicate Stopped(c: Cfg, r: Out<Val>, d: Dump) {
    match r
    case Ok(v, st) => c == Return(v, d, st)
    case Failed => c == Error
    case Wild => c == Crashed
    case OutOfFuel => false
  }

  /** The next step is the end. */
  lemma Ends(fns: Natives, c: Cfg, r: Out<Val>, d: Dump, f: nat)
    requires Stopped(Next(fns, c), r, d)
    ensures Meets(fns, c, 1, r, d, f)
  {
    hide Next, Steps;
    OneStep(fns, c);
  }

  lemma NoFuel(fns: Natives, s: State, d: Dump)
    ensures Meets(fns, Running(s), 0, OutOfFuel, d, 0)
  {}

  // ---------------------------------------------------------------- expressions

  lemma Sim(fns: Natives, fuel: nat, s: State) returns (n: nat)
    requires s.op == Eval
    ensures Meets(fns, Running(s), n, SchemeEval.Eval(fns, fuel, s.code, s.envir, s.store), s.dump, fuel)
    decreases fuel, 2
  {
    hide Meets, Steps, EvalForm, EvalApplied, SymbolValue;
    var r := SchemeEval.Eval(fns, fuel, s.code, s.envir, s.store);
    if fuel == 0 {
      NoFuel(fns, s, s.dump);
      n := 0;
    } else if s.code.Pair? && IsSyntax(s.code.car) {
      var s1 := s.(op := Start(s.code.car.role.form), code := s.code.cdr);
      n := SimForm(fns, fuel - 1, s1, s.code.car.role.form);
      GoOn(fns, Running(s), s1, n, r, s.dump, fuel - 1);
      n := 1 + n;
    } else if s.code.Pair? {
      n := SimApplication(fns, fuel, s);
    } else {
      Ends(fns, Running(s), r, s.dump, fuel);
      n := 1;
    }
  }

  /** An expression that is evaluated before operation `op` goes on with its value. */
  lemma SimThen(fns: Natives, fuel: nat, c: Cfg, s: State, code: Val, op: Op, args: Val, rest: Val) returns (n: nat)
    requires fuel > 0 && Next(fns, c) == EvalThen(s, code, op, args, rest)
    ensures
      var r := SchemeEval.Eval(fns, fuel - 1, code, s.envir, s.store);
      if r.Ok? then n > 0 && Steps(fns, n, c) == Running(State(op, rest, args, s.envir, r.v, s.dump, r.st))
      else Meets(fns, c, n, r, s.dump, fuel)
    decreases fuel, 0
  {
    hide Steps, Next, SchemeEval.Eval;
    var s1 := EvalThen(s, code, op, args, rest).s;
    var r := SchemeEval.Eval(fns, fuel - 1, code, s.envir, s.store);
    n := Sim(fns, fuel - 1, s1);
    GoOn(fns, c, s1, n, r, s1.dump, fuel - 1);
    n := 1 + n;
  }

  lemma SimApplication(fns: Natives, fuel: nat, s: State) returns (n: nat)
    requires s.op == Eval && fuel > 0 && s.code.Pair? && !IsSyntax(s.code.car)
    ensures Meets(fns, Running(s), n, SchemeEval.Eval(fns, fuel, s.code, s.envir, s.store), s.dump, fuel)
    decreases fuel, 1
  {
    hide Meets, Steps, EvalApplied;
    var r1 := SchemeEval.Eval(fns, fuel - 1, s.code.car, s.envir, s.store);
    n := SimThen(fns, fuel, Running(s), s, s.code.car, E0Args, Nil, s.code);
    if r1.Ok? {
      var s1 := State(E0Args, s.code, Nil, s.envir, r1.v, s.dump, r1.st);
      var s2 := s1.(op := Collect(Operands), code := s.code.cdr);
      var m := SimApplied(fns, fuel - 1, s2);
      var r := SchemeEval.Eval(fns, fuel, s.code, s.envir, s.store);
      assert r == EvalApplied(fns, fuel - 1, r1.v, s.code.cdr, s.envir, r1.st);
      GoOn(fns, Running(s1), s2, m, r, s.dump, fuel - 1);
      Join(fns, Running(s), n, Running(s1), 1 + m, r, s.dump, fuel, fuel);
      n := n + (1 + m);
    }
  }

  lemma SimApplied(fns: Natives, fuel: nat, s: State) returns (n: nat)
    requires s.op == Collect(Operands) && s.args == Nil
    ensures Meets(fns, Running(s), n, EvalApplied(fns, fuel, s.value, s.code, s.envir, s.store), s.dump, fuel)
    decreases fuel, 3
  {
    hide Meets, Steps, EvalItems, SchemeEval.Apply;
    var r := EvalApplied(fns, fuel, s.value, s.code, s.envir, s.store);
    var r1 := EvalItems(fns, fuel, Operands, s.code, s.envir, s.store);
    var w;
    n, w := SimItems(fns, fuel, Operands, s);
    if r1.Ok? {
      var s1 := State(Op.Apply, s.value, ListOf(r1.v), s.envir, w, s.dump, r1.st);
      assert RevOnto(ListOf(r1.v), Pair(s.value, Nil)) == RevOnto(Pair(s.value, ListOf(r1.v)), Nil);
      var m := SimApply(fns, fuel, s1);
      Join(fns, Running(s), n, Running(s1), m, r, s.dump, fuel, fuel);
      n := n + m;
    } else {
      OtherStop(fns, Running(s), n, r1, r, s.dump, fuel);
    }
  }

  /** No values: the machine has stopped, or not enough fuel. */
  ghost predicate Stops(fns: Natives, c: Cfg, n: nat, r: Out<seq<Val>>, fuel: nat) {
    match r
    case Ok(_, _) => false
    case Failed => Steps(fns, n, c) == Error
    case Wild => Steps(fns, n, c) == Crashed
    case OutOfFuel => n >= fuel && Steps(fns, n, c).Running?
  }

  predicate SameStop(a: Out<seq<Val>>, b: Out<Val>) {
    (a.Failed? && b.Failed?) || (a.Wild? && b.Wild?) || (a.OutOfFuel? && b.OutOfFuel?)
  }

  lemma OtherStop(fns: Natives, c: Cfg, n: nat, a: Out<seq<Val>>, b: Out<Val>, d: Dump, fuel: nat)
    requires Stops(fns, c, n, a, fuel) && SameStop(a, b)
    ensures Meets(fns, c, n, b, d, fuel)
  {
    hide Steps;
  }

  lemma ItemStop(fns: Natives, c: Cfg, n: nat, a: Out<seq<Val>>, b: Out<Val>, d: Dump, fuel: nat)
    requires Meets(fns, c, n, b, d, fuel) && SameStop(a, b)
    ensures Stops(fns, c, n, a, fuel)
  {
    hide Steps;
  }

  lemma StopsLater(fns: Natives, c: Cfg, m: nat, c1: Cfg, n: nat, r: Out<seq<Val>>, f1: nat, f: nat)
    requires Steps(fns, m, c) == c1 && Stops(fns, c1, n, r, f1) && f <= f1 + m
    ensures Stops(fns, c, m + n, r, f)
  {
    hide Steps;
    StepsAdd(fns, m, n, c);
  }

  /** The values come in order, behind those that are there; `w` is what is left in the value register. */
  lemma SimItems(fns: Natives, fuel: nat, kind: Kind, s: State) returns (n: nat, w: Val)
    requires s.op == Collect(kind)
    ensures
      var r := EvalItems(fns, fuel, kind, s.code, s.envir, s.store);
      if r.Ok? then
        var all := RevOnto(ListOf(r.v), Pair(s.value, s.args));
        Steps(fns, n, Running(s)) == Running(State(AfterItems(kind), Car(all), Cdr(all), s.envir, w, s.dump, r.st))
      else Stops(fns, Running(s), n, r, fuel)
    decreases fuel, 1
  {
    hide Steps, SchemeEval.Eval, Stops, Meets, RevOnto;
    w := s.value;
    var r := EvalItems(fns, fuel, kind, s.code, s.envir, s.store);
    if fuel == 0 {
      n := 0;
      NoItemFuel(fns, s);
    } else if !s.code.Pair? {
      n := 1;
      OneStep(fns, Running(s));
    } else if ItemOf(kind, s.code.car).None? {
      n := 1;
      OneStep(fns, Running(s));
      ItemFails(fns, Running(s), fuel);
    } else {
      var x := ItemOf(kind, s.code.car).value;
      var acc := Pair(s.value, s.args);
      var r1 := SchemeEval.Eval(fns, fuel - 1, x, s.envir, s.store);
      n := SimThen(fns, fuel, Running(s), s.(args := Nil), x, Collect(kind), acc, s.code.cdr);
      if r1.Ok? {
        var s1 := State(Collect(kind), s.code.cdr, acc, s.envir, r1.v, s.dump, r1.st);
        var m;
        m, w := SimItems(fns, fuel - 1, kind, s1);
        ItemsGoOn(fns, fuel, kind, s, n, s1, m, w);
        n := n + m;
      } else {
        ItemStop(fns, Running(s), n, r, r1, s.dump, fuel);
      }
    }
  }

  lemma NoItemFuel(fns: Natives, s: State)
    ensures Stops(fns, Running(s), 0, OutOfFuel, 0)
  {}

  lemma ItemFails(fns: Natives, c: Cfg, fuel: nat)
    requires Steps(fns, 1, c) == Error
    ensures Stops(fns, c, 1, Failed, fuel)
  {}

  /** One value, and then the others. */
  lemma ItemsGoOn(fns: Natives, fuel: nat, kind: Kind, s: State, n: nat, s1: State, m: nat, w: Val)
    requires fuel > 0 && s.code.Pair? && ItemOf(kind, s.code.car).Some? && n > 0
    requires
      var r1 := SchemeEval.Eval(fns, fuel - 1, ItemOf(kind, s.code.car).value, s.envir, s.store);
      && r1.Ok? && s1 == State(Collect(kind), s.code.cdr, Pair(s.value, s.args), s.envir, r1.v, s.dump, r1.st)
      && Steps(fns, n, Running(s)) == Running(s1)
    requires
      var r := EvalItems(fns, fuel - 1, kind, s1.code, s1.envir, s1.store);
      if r.Ok? then
        var all := RevOnto(ListOf(r.v), Pair(s1.value, s1.args));
        Steps(fns, m, Running(s1)) == Running(State(AfterItems(kind), Car(all), Cdr(all), s.envir, w, s.dump, r.st))
      else Stops(fns, Running(s1), m, r, fuel - 1)
    ensures
      var r := EvalItems(fns, fuel, kind, s.code, s.envir, s.store);
      if r.Ok? then
        var all := RevOnto(ListOf(r.v), Pair(s.value, s.args));
        Steps(fns, n + m, Running(s)) == Running(State(AfterItems(kind), Car(all), Cdr(all), s.envir, w, s.dump, r.st))
      else Stops(fns, Running(s), n + m, r, fuel)
  {
    hide Steps, SchemeEval.Eval, Stops;
    var r1 := SchemeEval.Eval(fns, fuel - 1, ItemOf(kind, s.code.car).value, s.envir, s.store);
    var r2 := EvalItems(fns, fuel - 1, kind, s1.code, s1.envir, s1.store);
    var r := EvalItems(fns, fuel, kind, s.code, s.envir, s.store);
    StepsAdd(fns, n, m, Running(s));
    if r2.Ok? {
      assert r == Ok([r1.v] + r2.v, r2.st);
      assert ([r1.v] + r2.v)[1..] == r2.v;
      assert ListOf(r.v) == Pair(r1.v, ListOf(r2.v));
      var acc := Pair(s.value, s.args);
      assert RevOnto(ListOf(r2.v), Pair(r1.v, acc)) == RevOnto(Pair(r1.v, ListOf(r2.v)), acc);
    } else {
      assert r == r2;
      StopsLater(fns, Running(s), n, Running(s1), m, r, fuel - 1, fuel);
    }
  }

  // ---------------------------------------------------------------- application

  lemma SimApply(fns: Natives, fuel: nat, s: State) returns (n: nat)
    requires s.op == Op.Apply
    ensures Meets(fns, Running(s), n, SchemeEval.Apply(fns, fuel, s.code, s.args, s.envir, s.store), s.dump, fuel)
    decreases fuel, 2
  {
    hide Meets, Steps, EvalBody, ApplyBuiltin, BindArgs;
    var r := SchemeEval.Apply(fns, fuel, s.code, s.args, s.envir, s.store);
    n := 1;
    if fuel == 0 {
      NoFuel(fns, s, s.dump);
      n := 0;
    } else if s.code.Sym? && s.code.role == Native {
      var s1 := s.(op := Call);
      Ends(fns, Running(s1), r, s.dump, fuel);
      GoOn(fns, Running(s), s1, 1, r, s.dump, fuel);
      WithLess(fns, Running(s), 2, r, s.dump, fuel + 1, fuel);
      n := 2;
    } else if s.code.Sym? && s.code.role.Proc? {
      var s1 := s.(op := Builtin(s.code.role.b));
      n := SimBuiltin(fns, fuel, s1, s.code.role.b);
      GoOn(fns, Running(s), s1, n, r, s.dump, fuel);
      n := 1 + n;
      WithLess(fns, Running(s), n, r, s.dump, fuel + 1, fuel);
    } else if s.code.Closure? && HasParts(s.code.code) && BindArgs(Car(s.code.code), s.args, []).Bound? {
      var fr := BindArgs(Car(s.code.code), s.args, []).frame;
      var s1 := s.(op := Start(Begin), code := Cdr(s.code.code), args := Nil,
        envir := Inner(|s.store|, s.code.env), store := s.store + [fr]);
      n := SimBody(fns, fuel - 1, s1);
      GoOn(fns, Running(s), s1, n, r, s.dump, fuel - 1);
      n := 1 + n;
    } else {
      Ends(fns, Running(s), r, s.dump, fuel);
    }
  }

  lemma WithLess(fns: Natives, c: Cfg, n: nat, r: Out<Val>, d: Dump, f1: nat, f: nat)
    requires Meets(fns, c, n, r, d, f1) && f <= f1
    ensures Meets(fns, c, n, r, d, f)
  {
    hide Steps;
  }

  lemma SimBuiltin(fns: Natives, fuel: nat, s: State, b: Builtin) returns (n: nat)
    requires s.op == Builtin(b) && fuel > 0
    ensures Meets(fns, Running(s), n, ApplyBuiltin(fns, fuel, b, s.args, s.envir, s.store), s.dump, fuel)
    decreases fuel, 1
  {
    hide Meets, Steps, SchemeEval.Apply, SchemeEval.Eval;
    var r := ApplyBuiltin(fns, fuel, b, s.args, s.envir, s.store);
    var c := StepBuiltin(s, b);
    assert Next(fns, Running(s)) == c;
    if HasParts(s.args) && b == PEval {
      n := Sim(fns, fuel - 1, c.s);
      GoOn(fns, Running(s), c.s, n, r, s.dump, fuel - 1);
      n := 1 + n;
    } else if c.Running? && HasParts(s.args)
      && (b == PApply || (b == Force && Car(s.args).Closure? && Car(s.args).promise)) {
      n := SimApply(fns, fuel - 1, c.s);
      GoOn(fns, Running(s), c.s, n, r, s.dump, fuel - 1);
      n := 1 + n;
    } else {
      Ends(fns, Running(s), r, s.dump, fuel);
      n := 1;
    }
  }

  // ---------------------------------------------------------------- the special forms

  lemma SimBody(fns: Natives, fuel: nat, s: State) returns (n: nat)
    requires s.op == Start(Begin)
    ensures Meets(fns, Running(s), n, EvalBody(fns, fuel, s.code, s.envir, s.store), s.dump, fuel)
    decreases fuel, 1
  {
    hide Meets, Steps, SchemeEval.Eval;
    var r := EvalBody(fns, fuel, s.code, s.envir, s.store);
    if fuel == 0 {
      NoFuel(fns, s, s.dump);
      n := 0;
    } else if !s.code.Pair? {
      Ends(fns, Running(s), r, s.dump, fuel);
      n := 1;
    } else if s.code.cdr == Nil {
      var s1 := s.(op := Op.Eval, code := s.code.car);
      n := Sim(fns, fuel - 1, s1);
      GoOn(fns, Running(s), s1, n, r, s.dump, fuel - 1);
      n := 1 + n;
    } else {
      var r1 := SchemeEval.Eval(fns, fuel - 1, s.code.car, s.envir, s.store);
      n := SimThen(fns, fuel, Running(s), s, s.code.car, Start(Begin), Nil, s.code.cdr);
      if r1.Ok? {
        var s1 := State(Start(Begin), s.code.cdr, Nil, s.envir, r1.v, s.dump, r1.st);
        var m := SimBody(fns, fuel - 1, s1);
        Join(fns, Running(s), n, Running(s1), m, r, s.dump, fuel - 1, fuel);
        n := n + m;
      }
    }
  }

  lemma SimForm(fns: Natives, fuel: nat, s: State, form: Form) returns (n: nat)
    requires s.op == Start(form)
    ensures Meets(fns, Running(s), n, EvalForm(fns, fuel, form, s.code, s.envir, s.store), s.dump, fuel)
    decreases fuel, 3
  {
    hide Meets, Steps, Next, EvalBody, EvalDefine, EvalIf, EvalSet, EvalLet, EvalLetStar,
      EvalLetRec, EvalCond, EvalConnect, EvalStream;
    if fuel == 0 {
      NoFuel(fns, s, s.dump);
      n := 0;
    } else {
      match form {
        case Define => n := SimDefine(fns, fuel, s);
        case Begin => n := SimBody(fns, fuel, s);
        case If => n := SimIf(fns, fuel, s);
        case Set => n := SimSet(fns, fuel, s);
        case Let => n := SimLet(fns, fuel, s);
        case LetStar => n := SimLetStar(fns, fuel, s);
        case LetRec => n := SimLetRec(fns, fuel, s);
        case Stream => n := SimStream(fns, fuel, s);
        case Cond => n := SimCondForm(fns, fuel, s);
        case Connect(c) => n := SimConnectForm(fns, fuel, s, c);
        case _ => n := SimAtom(fns, fuel, s, form);
      }
    }
  }

  lemma SimAtom(fns: Natives, fuel: nat, s: State, form: Form) returns (n: nat)
    requires s.op == Start(form) && fuel > 0 && (form == Lambda || form == Quote || form == Delay)
    ensures Meets(fns, Running(s), n, EvalForm(fns, fuel, form, s.code, s.envir, s.store), s.dump, fuel)
  {
    hide Meets, Steps;
    Ends(fns, Running(s), EvalForm(fns, fuel, form, s.code, s.envir, s.store), s.dump, fuel);
    n := 1;
  }

  lemma SimDefine(fns: Natives, fuel: nat, s: State) returns (n: nat)
    requires s.op == Start(Define) && fuel > 0
    ensures Meets(fns, Running(s), n, EvalDefine(fns, fuel, s.code, s.envir, s.store), s.dump, fuel)
    decreases fuel, 1
  {
    hide Meets, Steps, SchemeEval.Eval, DefinedName, DefinedAs, DefineIn;
    var r := EvalDefine(fns, fuel, s.code, s.envir, s.store);
    if !StepDefine(s).Running? {
      Ends(fns, Running(s), r, s.dump, fuel);
      n := 1;
    } else {
      var r1 := SchemeEval.Eval(fns, fuel - 1, DefinedAs(s.code), s.envir, s.store);
      n := SimThen(fns, fuel, Running(s), s, DefinedAs(s.code), Def1, Nil, DefinedName(s.code));
      if r1.Ok? {
        var s1 := State(Def1, DefinedName(s.code), Nil, s.envir, r1.v, s.dump, r1.st);
        Ends(fns, Running(s1), r, s.dump, fuel);
        Join(fns, Running(s), n, Running(s1), 1, r, s.dump, fuel, fuel);
        n := n + 1;
      }
    }
  }

  lemma SimIf(fns: Natives, fuel: nat, s: State) returns (n: nat)
    requires s.op == Start(If) && fuel > 0
    ensures Meets(fns, Running(s), n, EvalIf(fns, fuel, s.code, s.envir, s.store), s.dump, fuel)
    decreases fuel, 1
  {
    hide Meets, Steps, SchemeEval.Eval;
    var r := EvalIf(fns, fuel, s.code, s.envir, s.store);
    if !HasParts(s.code) {
      Ends(fns, Running(s), r, s.dump, fuel);
      n := 1;
    } else {
      var r1 := SchemeEval.Eval(fns, fuel - 1, Car(s.code), s.envir, s.store);
      n := SimThen(fns, fuel, Running(s), s, Car(s.code), If1, Nil, Cdr(s.code));
      if r1.Ok? {
        var s1 := State(If1, Cdr(s.code), Nil, s.envir, r1.v, s.dump, r1.st);
        var m := SimBranch(fns, fuel, s1, r);
        Join(fns, Running(s), n, Running(s1), m, r, s.dump, fuel, fuel);
        n := n + m;
      }
    }
  }

  lemma SimBranch(fns: Natives, fuel: nat, s: State, r: Out<Val>) returns (n: nat)
    requires s.op == If1 && fuel > 0
    requires
      r == if !HasParts(s.code) then Wild
      else if IsTrue(s.value) then SchemeEval.Eval(fns, fuel - 1, Car(s.code), s.envir, s.store)
      else if !HasParts(Cdr(s.code)) then Wild
      else SchemeEval.Eval(fns, fuel - 1, Car(Cdr(s.code)), s.envir, s.store)
    ensures Meets(fns, Running(s), n, r, s.dump, fuel)
    decreases fuel, 0
  {
    hide Meets, Steps, SchemeEval.Eval;
    var c := StepIf1(s);
    assert Next(fns, Running(s)) == c;
    if c.Running? {
      n := Sim(fns, fuel - 1, c.s);
      GoOn(fns, Running(s), c.s, n, r, s.dump, fuel - 1);
      n := 1 + n;
    } else {
      Ends(fns, Running(s), r, s.dump, fuel);
      n := 1;
    }
  }

  lemma SimSet(fns: Natives, fuel: nat, s: State) returns (n: nat)
    requires s.op == Start(Set) && fuel > 0
    ensures Meets(fns, Running(s), n, EvalSet(fns, fuel, s.code, s.envir, s.store), s.dump, fuel)
    decreases fuel, 1
  {
    hide Meets, Steps, SchemeEval.Eval, Find, Assign;
    var r := EvalSet(fns, fuel, s.code, s.envir, s.store);
    if !HasParts(s.code) || !HasParts(Cdr(s.code)) {
      Ends(fns, Running(s), r, s.dump, fuel);
      n := 1;
    } else {
      var r1 := SchemeEval.Eval(fns, fuel - 1, Car(Cdr(s.code)), s.envir, s.store);
      n := SimThen(fns, fuel, Running(s), s, Car(Cdr(s.code)), Set1, Nil, Car(s.code));
      if r1.Ok? {
        var s1 := State(Set1, Car(s.code), Nil, s.envir, r1.v, s.dump, r1.st);
        Ends(fns, Running(s1), r, s.dump, fuel);
        Join(fns, Running(s), n, Running(s1), 1, r, s.dump, fuel, fuel);
        n := n + 1;
      }
    }
  }

  lemma SimStream(fns: Natives, fuel: nat, s: State) returns (n: nat)
    requires s.op == Start(Stream) && fuel > 0
    ensures Meets(fns, Running(s), n, EvalStream(fns, fuel, s.code, s.envir, s.store), s.dump, fuel)
    decreases fuel, 1
  {
    hide Meets, Steps, SchemeEval.Eval;
    var r := EvalStream(fns, fuel, s.code, s.envir, s.store);
    if !HasParts(s.code) {
      Ends(fns, Running(s), r, s.dump, fuel);
      n := 1;
    } else {
      var r1 := SchemeEval.Eval(fns, fuel - 1, Car(s.code), s.envir, s.store);
      n := SimThen(fns, fuel, Running(s), s, Car(s.code), Stream1, Nil, Cdr(s.code));
      if r1.Ok? {
        var s1 := State(Stream1, Cdr(s.code), Nil, s.envir, r1.v, s.dump, r1.st);
        Ends(fns, Running(s1), r, s.dump, fuel);
        Join(fns, Running(s), n, Running(s1), 1, r, s.dump, fuel, fuel);
        n := n + 1;
      }
    }
  }

  // ---------------------------------------------------------------- let, letrec and let*

  lemma SimLet(fns: Natives, fuel: nat, s: State) returns (n: nat)
    requires s.op == Start(Let) && fuel > 0
    ensures Meets(fns, Running(s), n, EvalLet(fns, fuel, s.code, s.envir, s.store), s.dump, fuel)
    decreases fuel, 1
  {
    hide Meets, Steps, EvalItems, EvalBody, LetBindings, LetBody, LetStore;
    var r := EvalLet(fns, fuel, s.code, s.envir, s.store);
    var c := StepLet(s);
    assert Next(fns, Running(s)) == c;
    if !c.Running? {
      Ends(fns, Running(s), r, s.dump, fuel);
      n := 1;
    } else {
      var m := SimLetItems(fns, fuel - 1, c.s, s.code, r);
      GoOn(fns, Running(s), c.s, m, r, s.dump, fuel - 1);
      n := 1 + m;
    }
  }

  ghost predicate LetMeans(fns: Natives, fuel: nat, s: State, code: Val, r: Out<Val>) {
    match EvalItems(fns, fuel, Lets, s.code, s.envir, s.store)
    case Ok(vs, st1) =>
      r == EvalBody(fns, fuel, LetBody(code), Inner(|st1|, s.envir), LetStore(code, ListOf(vs), s.envir, st1))
    case r1 => SameStop(r1, r)
  }

  /** The values, and then the body. */
  lemma SimLetItems(fns: Natives, fuel: nat, s: State, code: Val, r: Out<Val>) returns (n: nat)
    requires s.op == Collect(Lets) && s.args == Nil && s.value == code
    requires LetMeans(fns, fuel, s, code, r)
    ensures Meets(fns, Running(s), n, r, s.dump, fuel)
    decreases fuel, 3
  {
    hide Meets, Steps, EvalItems, EvalBody, LetBody, LetStore;
    var r1 := EvalItems(fns, fuel, Lets, s.code, s.envir, s.store);
    var w;
    n, w := SimItems(fns, fuel, Lets, s);
    if r1.Ok? {
      var s1 := State(Let2, code, ListOf(r1.v), s.envir, w, s.dump, r1.st);
      assert RevOnto(ListOf(r1.v), Pair(code, Nil)) == RevOnto(Pair(code, ListOf(r1.v)), Nil);
      var s2 := StepLet2(s1).s;
      var m := SimBody(fns, fuel, s2);
      GoOn(fns, Running(s1), s2, m, r, s.dump, fuel);
      Join(fns, Running(s), n, Running(s1), 1 + m, r, s.dump, fuel + 1, fuel);
      n := n + (1 + m);
    } else {
      OtherStop(fns, Running(s), n, r1, r, s.dump, fuel);
    }
  }

  lemma SimLetRec(fns: Natives, fuel: nat, s: State) returns (n: nat)
    requires s.op == Start(LetRec) && fuel > 0
    ensures Meets(fns, Running(s), n, EvalLetRec(fns, fuel, s.code, s.envir, s.store), s.dump, fuel)
    decreases fuel, 1
  {
    hide Meets, Steps, EvalItems, EvalBody, SetFrame, LetFrame;
    var r := EvalLetRec(fns, fuel, s.code, s.envir, s.store);
    var c := StepLetRec(s);
    assert Next(fns, Running(s)) == c;
    if !c.Running? {
      Ends(fns, Running(s), r, s.dump, fuel);
      n := 1;
    } else {
      var m := SimLetRecItems(fns, fuel - 1, c.s, s.code, r);
      GoOn(fns, Running(s), c.s, m, r, s.dump, fuel - 1);
      n := 1 + m;
    }
  }

  ghost predicate LetRecMeans(fns: Natives, fuel: nat, s: State, code: Val, r: Out<Val>) {
    var k := s.envir.frame;
    match EvalItems(fns, fuel, LetRecs, s.code, s.envir, s.store)
    case Ok(vs, st1) =>
      r == EvalBody(fns, fuel, Cdr(code), s.envir,
        SetFrame(st1, k, LetFrame(Car(code), ListOf(vs), FrameAt(st1, k))))
    case r1 => SameStop(r1, r)
  }

  lemma SimLetRecItems(fns: Natives, fuel: nat, s: State, code: Val, r: Out<Val>) returns (n: nat)
    requires s.op == Collect(LetRecs) && s.args == Nil && s.value == code
    requires LetRecMeans(fns, fuel, s, code, r)
    ensures Meets(fns, Running(s), n, r, s.dump, fuel)
    decreases fuel, 3
  {
    hide Meets, Steps, EvalItems, EvalBody, SetFrame, LetFrame;
    var r1 := EvalItems(fns, fuel, LetRecs, s.code, s.envir, s.store);
    var w;
    n, w := SimItems(fns, fuel, LetRecs, s);
    if r1.Ok? {
      var s1 := State(LetRec2, code, ListOf(r1.v), s.envir, w, s.dump, r1.st);
      assert RevOnto(ListOf(r1.v), Pair(code, Nil)) == RevOnto(Pair(code, ListOf(r1.v)), Nil);
      var s2 := StepLetRec2(s1).s;
      var m := SimBody(fns, fuel, s2);
      GoOn(fns, Running(s1), s2, m, r, s.dump, fuel);
      Join(fns, Running(s), n, Running(s1), 1 + m, r, s.dump, fuel + 1, fuel);
      n := n + (1 + m);
    } else {
      OtherStop(fns, Running(s), n, r1, r, s.dump, fuel);
    }
  }

  lemma SimLetStar(fns: Natives, fuel: nat, s: State) returns (n: nat)
    requires s.op == Start(LetStar) && fuel > 0
    ensures Meets(fns, Running(s), n, EvalLetStar(fns, fuel, s.code, s.envir, s.store), s.dump, fuel)
    decreases fuel, 1
  {
    hide Meets, Steps, SchemeEval.Eval, EvalBody, EvalStarRest, AddTo, ItemOf;
    var r := EvalLetStar(fns, fuel, s.code, s.envir, s.store);
    var c := StepLetStar(s);
    assert Next(fns, Running(s)) == c;
    if !c.Running? {
      Ends(fns, Running(s), r, s.dump, fuel);
      n := 1;
    } else if Car(s.code) == Nil {
      n := SimBody(fns, fuel - 1, c.s);
      GoOn(fns, Running(s), c.s, n, r, s.dump, fuel - 1);
      n := 1 + n;
    } else {
      var x := ItemOf(Lets, Car(Car(s.code))).value;
      var r1 := SchemeEval.Eval(fns, fuel - 1, x, s.envir, s.store);
      n := SimThen(fns, fuel, Running(s), s, x, LetStar1, Cdr(s.code), Car(s.code));
      if r1.Ok? {
        var s1 := State(LetStar1, Car(s.code), Cdr(s.code), s.envir, r1.v, s.dump, r1.st);
        var s2 := StepLetStar1(s1).s;
        var m := SimStar(fns, fuel - 1, s2);
        GoOn(fns, Running(s1), s2, m, r, s.dump, fuel - 1);
        Join(fns, Running(s), n, Running(s1), 1 + m, r, s.dump, fuel, fuel);
        n := n + (1 + m);
      }
    }
  }

  /** The binding that has its value now, and the rest of the bindings. */
  lemma SimStar(fns: Natives, fuel: nat, s: State) returns (n: nat)
    requires s.op == LetStar2
    ensures
      var r := EvalStarRest(fns, fuel, Cdr(s.code), s.args, s.envir,
        AddTo(s.store, s.envir.frame, Car(Car(s.code)), s.value));
      Meets(fns, Running(s), n, r, s.dump, fuel)
    decreases fuel, 1
  {
    hide Meets, Steps, SchemeEval.Eval, EvalBody, AddTo, ItemOf;
    var st := AddTo(s.store, s.envir.frame, Car(Car(s.code)), s.value);
    var bs := Cdr(s.code);
    var r := EvalStarRest(fns, fuel, bs, s.args, s.envir, st);
    var c := StepLetStar2(s);
    assert Next(fns, Running(s)) == c;
    if fuel == 0 {
      NoFuel(fns, s, s.dump);
      n := 0;
    } else if !bs.Pair? {
      n := SimBody(fns, fuel - 1, c.s);
      GoOn(fns, Running(s), c.s, n, r, s.dump, fuel - 1);
      n := 1 + n;
    } else if ItemOf(Lets, bs.car).None? {
      Ends(fns, Running(s), r, s.dump, fuel);
      n := 1;
    } else {
      var x := ItemOf(Lets, bs.car).value;
      var r1 := SchemeEval.Eval(fns, fuel - 1, x, s.envir, st);
      n := SimThen(fns, fuel, Running(s), s.(store := st, args := Nil), x, LetStar2, s.args, bs);
      if r1.Ok? {
        var s1 := State(LetStar2, bs, s.args, s.envir, r1.v, s.dump, r1.st);
        var m := SimStar(fns, fuel - 1, s1);
        Join(fns, Running(s), n, Running(s1), m, r, s.dump, fuel - 1, fuel);
        n := n + m;
      }
    }
  }

  // ---------------------------------------------------------------- cond, and, or

  lemma SimCondForm(fns: Natives, fuel: nat, s: State) returns (n: nat)
    requires s.op == Start(Cond) && fuel > 0
    ensures Meets(fns, Running(s), n, EvalForm(fns, fuel, Cond, s.code, s.envir, s.store), s.dump, fuel)
    decreases fuel, 2
  {
    hide Meets, Steps, EvalCond, CondNext;
    if s.code.Pair? {
      n := SimCond(fns, fuel, Running(s), s, s.code);
    } else {
      Ends(fns, Running(s), Failed, s.dump, fuel);
      n := 1;
    }
  }

  /** The clauses from `code` on: the next step goes on to the first test. */
  lemma SimCond(fns: Natives, fuel: nat, c: Cfg, s: State, code: Val) returns (n: nat)
    requires fuel > 0 && Next(fns, c) == CondNext(s, code) && c.Running?
    ensures Meets(fns, c, n, EvalCond(fns, fuel, code, s.envir, s.store), s.dump, fuel)
    decreases fuel, 1
  {
    hide Meets, Steps, SchemeEval.Eval, EvalBody, Next;
    var r := EvalCond(fns, fuel, code, s.envir, s.store);
    if !HasParts(code) || !HasParts(Car(code)) {
      Ends(fns, c, r, s.dump, fuel);
      n := 1;
    } else {
      var r1 := SchemeEval.Eval(fns, fuel - 1, Car(Car(code)), s.envir, s.store);
      n := SimThen(fns, fuel, c, s, Car(Car(code)), Cond1, Nil, code);
      if r1.Ok? {
        var s1 := State(Cond1, code, Nil, s.envir, r1.v, s.dump, r1.st);
        var m := SimClause(fns, fuel, s1, r);
        Join(fns, c, n, Running(s1), m, r, s.dump, fuel - 1, fuel);
        n := n + m;
      }
    }
  }

  /** The value of a test is there: the clause is taken, or the next one is tried. */
  lemma SimClause(fns: Natives, fuel: nat, s: State, r: Out<Val>) returns (n: nat)
    requires s.op == Cond1 && fuel > 0
    requires
      r == if IsTrue(s.value) then
        if Cdr(Car(s.code)) == Nil then Ok(s.value, s.store)
        else EvalBody(fns, fuel - 1, Cdr(Car(s.code)), s.envir, s.store)
      else if Cdr(s.code) == Nil then Ok(Nil, s.store)
      else EvalCond(fns, fuel - 1, Cdr(s.code), s.envir, s.store)
    ensures Meets(fns, Running(s), n, r, s.dump, fuel - 1)
    decreases fuel, 0
  {
    hide Meets, Steps, EvalBody, CondNext;
    if IsTrue(s.value) && Cdr(Car(s.code)) != Nil {
      var s1 := s.(op := Start(Begin), code := Cdr(Car(s.code)));
      n := SimBody(fns, fuel - 1, s1);
      GoOn(fns, Running(s), s1, n, r, s.dump, fuel - 1);
      n := 1 + n;
      WithLess(fns, Running(s), n, r, s.dump, fuel, fuel - 1);
    } else if IsTrue(s.value) || Cdr(s.code) == Nil {
      Ends(fns, Running(s), r, s.dump, fuel - 1);
      n := 1;
    } else if fuel == 1 {
      NoFuel(fns, s, s.dump);
      n := 0;
    } else {
      n := SimCond(fns, fuel - 1, Running(s), s, Cdr(s.code));
    }
  }

  lemma SimConnectForm(fns: Natives, fuel: nat, s: State, k: Connective) returns (n: nat)
    requires s.op == Start(Connect(k)) && fuel > 0
    ensures Meets(fns, Running(s), n, EvalForm(fns, fuel, Connect(k), s.code, s.envir, s.store), s.dump, fuel)
    decreases fuel, 2
  {
    hide Meets, Steps, EvalConnect, ConnectNext;
    if s.code == Nil {
      Ends(fns, Running(s), EvalForm(fns, fuel, Connect(k), s.code, s.envir, s.store), s.dump, fuel);
      n := 1;
    } else {
      n := SimConnect(fns, fuel, Running(s), s, k, s.code);
    }
  }

  lemma SimConnect(fns: Natives, fuel: nat, c: Cfg, s: State, k: Connective, code: Val) returns (n: nat)
    requires fuel > 0 && Next(fns, c) == ConnectNext(s, k, code) && c.Running?
    ensures Meets(fns, c, n, EvalConnect(fns, fuel, k, code, s.envir, s.store), s.dump, fuel)
    decreases fuel, 1
  {
    hide Meets, Steps, SchemeEval.Eval, Settles, Step;
    var r := EvalConnect(fns, fuel, k, code, s.envir, s.store);
    if !HasParts(code) {
      Ends(fns, c, r, s.dump, fuel);
      n := 1;
    } else {
      var r1 := SchemeEval.Eval(fns, fuel - 1, Car(code), s.envir, s.store);
      n := SimThen(fns, fuel, c, s, Car(code), Connect1(k), Nil, Cdr(code));
      if r1.Ok? {
        var s1 := State(Connect1(k), Cdr(code), Nil, s.envir, r1.v, s.dump, r1.st);
        Connect1Next(fns, s1, k);
        var m: nat;
        if Settles(k, r1.v) || Cdr(code) == Nil {
          Ends(fns, Running(s1), r, s.dump, fuel);
          m := 1;
        } else if fuel == 1 {
          NoFuel(fns, s1, s.dump);
          m := 0;
        } else {
          m := SimConnect(fns, fuel - 1, Running(s1), s1, k, Cdr(code));
        }
        assert Meets(fns, Running(s1), m, r, s.dump, fuel - 1) by {
          if Settles(k, r1.v) || Cdr(code) == Nil {
            WithLess(fns, Running(s1), m, r, s.dump, fuel, fuel - 1);
          }
        }
        Join(fns, c, n, Running(s1), m, r, s.dump, fuel - 1, fuel);
        n := n + m;
      }
    }
  }

  lemma Connect1Next(fns: Natives, s: State, k: Connective)
    requires s.op == Connect1(k)
    ensures Next(fns, Running(s)) == StepConnect1(s, k)
  {}

  // ---------------------------------------------------------------- programs

  function StartOf(code: Val, env: Env, st: Store): Cfg {
    Running(State(Op.Eval, code, Nil, env, Nil, Base, st))
  }

  /** What a stopped machine says of the program. */
  predicate Agrees(c: Cfg, r: Out<Val>) {
    match r
    case Ok(v, st) => c == Halted(v, st)
    case Failed => c == Error
    case Wild => c == Crashed
    case OutOfFuel => false
  }

  /** A machine that stops gives what the program means. */
  lemma Sound(fns: Natives, n: nat, code: Val, env: Env, st: Store)
    requires !Steps(fns, n, StartOf(code, env, st)).Running?
    ensures Agrees(Steps(fns, n, StartOf(code, env, st)), SchemeEval.Eval(fns, n + 1, code, env, st))
  {
    hide Steps, SchemeEval.Eval;
    var c := StartOf(code, env, st);
    var m := Sim(fns, n + 1, c.s);
    if m <= n {
      StepsAdd(fns, m, n - m, c);
      if !Steps(fns, m, c).Running? {
        StepsStay(fns, n - m, Steps(fns, m, c));
      }
    } else {
      StepsAdd(fns, n, m - n, c);
      StepsStay(fns, m - n, Steps(fns, n, c));
    }
  }

  /** And a program that means something makes the machine stop with it. */
  lemma Complete(fns: Natives, fuel: nat, code: Val, env: Env, st: Store) returns (n: nat)
    requires !SchemeEval.Eval(fns, fuel, code, env, st).OutOfFuel?
    ensures Agrees(Steps(fns, n, StartOf(code, env, st)), SchemeEval.Eval(fns, fuel, code, env, st))
  {
    hide Steps, SchemeEval.Eval;
    n := Sim(fns, fuel, StartOf(code, env, st).s);
  }

  /** More fuel changes no result. */
  lemma SameMeaning(fns: Natives, f1: nat, f2: nat, code: Val, env: Env, st: Store)
    requires !SchemeEval.Eval(fns, f1, code, env, st).OutOfFuel?
    requires !SchemeEval.Eval(fns, f2, code, env, st).OutOfFuel?
    ensures SchemeEval.Eval(fns, f1, code, env, st) == SchemeEval.Eval(fns, f2, code, env, st)
  {
    hide Steps, SchemeEval.Eval;
    var c := StartOf(code, env, st);
    var n1 := Complete(fns, f1, code, env, st);
    var n2 := Complete(fns, f2, code, env, st);
    var lo, hi := if n1 <= n2 then n1 else n2, if n1 <= n2 then n2 else n1;
    StepsAdd(fns, lo, hi - lo, c);
    StepsStay(fns, hi - lo, Steps(fns, lo, c));
  }

  /** The machine stops with `v` exactly when the program means `v`. */
  lemma Correct(fns: Natives, code: Val, env: Env, st: Store, v: Val, st2: Store)
    ensures
      (exists n :: Steps(fns, n, StartOf(code, env, st)) == Halted(v, st2))
      <==> (exists f :: SchemeEval.Eval(fns, f, code, env, st) == Ok(v, st2))
  {
    hide Steps, SchemeEval.Eval;
    if n :| Steps(fns, n, StartOf(code, env, st)) == Halted(v, st2) {
      Sound(fns, n, code, env, st);
    }
    if f :| SchemeEval.Eval(fns, f, code, env, st) == Ok(v, st2) {
      var n := Complete(fns, f, code, env, st);
    }
  }

  /** It runs for ever exactly when no fuel is enough. */
  lemma Diverges(fns: Natives, code: Val, env: Env, st: Store)
    ensures
      (forall n :: Steps(fns, n, StartOf(code, env, st)).Running?)
      <==> (forall f :: SchemeEval.Eval(fns, f, code, env, st).OutOfFuel?)
  {
    hide Steps, SchemeEval.Eval;
    if n :| !Steps(fns, n, StartOf(code, env, st)).Running? {
      Sound(fns, n, code, env, st);
    }
    if f :| !SchemeEval.Eval(fns, f, code, env, st).OutOfFuel? {
      var n := Complete(fns, f, code, env, st);
    }
  }
}
