/**
 * The registers of the query language and opexe (`lib/scm.c` 1153-1582), which changes them one
 * by one: every operation does a step of the machine.
 */
module SchemeOpexe {
  import opened Options
  import opened SchemeValues
  import opened SchemeEval
  import opened SchemeMachine
  import opened SchemeSim

  /** Go on; back at the top level; an error of the program; what is no list was used as one. */
  datatype Rc = Going | Returned | Erred | Broken

  // ---------------------------------------------------------------- loops over lists

  /** non_alloc_rev */
  method Reverse(term: Val, list: Val) returns (r: Val)
    ensures r == RevOnto(term, list)
  {
    var p := list;
    r := term;
    while p.Pair?
      invariant RevOnto(r, p) == RevOnto(term, list)
      decreases p
    {
      r, p := Pair(p.car, r), p.cdr;
    }
  }

  method SearchFrame(fr: Frame, name: Val) returns (i: nat)
    ensures i == IndexIn(fr, name)
  {
    i := 0;
    while i < |fr| && fr[i].name != name
      invariant i <= |fr| && forall j :: 0 <= j < i ==> fr[j].name != name
    {
      i := i + 1;
    }
    FirstIndex(fr, name, i);
  }

  /** The frames from the innermost one outwards. */
  method Search(name: Val, env: Env, st: Store) returns (r: Option<Place>)
    ensures r == Find(name, env, st)
  {
    var x := env;
    while true
      invariant Find(name, x, st) == Find(name, env, st)
      decreases x
    {
      var fr := FrameAt(st, x.frame);
      var i := SearchFrame(fr, name);
      if i < |fr| {
        return Some(Place(x.frame, i));
      }
      if x.Global? {
        return None;
      }
      x := x.outer;
    }
  }

  method BindParams(params: Val, args: Val) returns (b: Bound)
    ensures b == BindArgs(params, args, [])
  {
    var x, y := params, args;
    var fr: Frame := [];
    while x.Pair?
      invariant BindArgs(x, y, fr) == BindArgs(params, args, [])
      decreases x
    {
      if y == Nil {
        return Few;
      }
      if !HasParts(y) {
        return BadArgs;
      }
      fr := [Binding(x.car, Car(y))] + fr;
      x, y := x.cdr, Cdr(y);
    }
    if x == Nil {
      b := Bound(fr);
    } else if x.Sym? {
      b := Bound([Binding(x, y)] + fr);
    } else {
      b := BadParams;
    }
  }

  method BindLet(bindings: Val, vals: Val, fr0: Frame) returns (fr: Frame)
    ensures fr == LetFrame(bindings, vals, fr0)
  {
    var x, y := bindings, vals;
    fr := fr0;
    while y.Pair?
      invariant LetFrame(x, y, fr) == LetFrame(bindings, vals, fr0)
      decreases y
    {
      fr := [Binding(Car(Car(x)), y.car)] + fr;
      x, y := Cdr(x), y.cdr;
    }
  }

  method CollectNames(bindings: Val) returns (names: Val)
    ensures names == Names(bindings)
  {
    var x := bindings;
    var acc := Nil;
    while x.Pair?
      invariant NamesOnto(x, acc) == NamesOnto(bindings, Nil)
      decreases x
    {
      x, acc := x.cdr, Pair(Car(x.car), acc);
    }
    names := Reverse(Nil, acc);
    NamesBack(bindings, Nil);
    assert RevOnto(Names(bindings), Nil) == Names(bindings);
  }

  // ---------------------------------------------------------------- the registers

  class Ctx {
    const fns: Natives
    var op: Op
    var code: Val
    var args: Val
    var envir: Env
    var value: Val
    var dump: Dump
    var store: Store

    constructor (fns: Natives, program: Val, global: Env, st: Store)
      ensures this.fns == fns && Running(Regs()) == StartOf(program, global, st)
    {
      this.fns := fns;
      op, code, args, envir, value, dump, store := Op.Eval, program, Nil, global, Nil, Base, st;
    }

    function Regs(): State
      reads this
    {
      State(op, code, args, envir, value, dump, store)
    }

    /** What the step has come to. */
    predicate Is(c: Cfg, rc: Rc)
      reads this
    {
      match c
      case Running(s) => rc == Going && Regs() == s
      case Halted(v, st) => rc == Returned && value == v && store == st
      case Error => rc == Erred
      case Crashed => rc == Broken
    }

    /** s_save */
    method SaveRegs(op1: Op, args1: Val, code1: Val)
      modifies this`dump
      ensures Regs() == Save(old(Regs()), op1, args1, code1)
    {
      dump := Frame(op1, args1, envir, code1, dump);
    }

    /** s_return */
    method GiveBack(v: Val) returns (rc: Rc)
      modifies this
      ensures Is(Back(old(Regs()), v), rc)
    {
      value := v;
      match dump {
        case Base =>
          rc := Returned;
        case Frame(op1, args1, envir1, code1, rest) =>
          op, args, envir, code := op1, args1, envir1, code1;
          dump := rest;
          rc := Going;
      }
    }

    /** A new, empty frame. */
    method PushFrame(outer: Env, fr: Frame)
      modifies this`envir, this`store
      ensures Regs() == old(Regs()).(envir := Inner(|old(store)|, outer), store := old(store) + [fr])
    {
      envir := Inner(|store|, outer);
      store := store + [fr];
    }

    /** An expression first; the operation goes on with its value. */
    method EvalFirst(x: Val, op1: Op, args1: Val, code1: Val) returns (rc: Rc)
      modifies this
      ensures Is(EvalThen(old(Regs()), x, op1, args1, code1), rc)
    {
      SaveRegs(op1, args1, code1);
      code := x;
      op := Op.Eval;
      rc := Going;
    }

    method TryClause() returns (rc: Rc)
      modifies this
      ensures Is(CondNext(old(Regs()), old(code)), rc)
    {
      if !HasParts(code) || !HasParts(Car(code)) {
        return Broken;
      }
      rc := EvalFirst(Car(Car(code)), Cond1, Nil, code);
    }

    method TryNext(c: Connective) returns (rc: Rc)
      modifies this
      ensures Is(ConnectNext(old(Regs()), c, old(code)), rc)
    {
      if !HasParts(code) {
        return Broken;
      }
      rc := EvalFirst(Car(code), Connect1(c), Nil, Cdr(code));
    }

    /** Expressions and application. */
    method Expression() returns (rc: Rc)
      requires op.Eval? || op.E0Args? || op.Collect? || op.Apply? || op.Call? || op.Builtin?
      modifies this
      ensures Is(Step(fns, old(Regs())), rc)
    {
      match op {
        case Eval =>
          if code.Sym? {
            if IsKeyword(code.name) {
              rc := GiveBack(code);
              return;
            }
            var p := Search(code, envir, store);
            if p.Some? {
              rc := GiveBack(store[p.value.frame][p.value.index].val);
            } else if code.role.Proc? || code.role.Native? {
              rc := GiveBack(code);
            } else {
              rc := Erred;
            }
          } else if code.Pair? {
            var x := code.car;
            if IsSyntax(x) {
              code := code.cdr;
              op := Start(x.role.form);
            } else {
              SaveRegs(E0Args, Nil, code);
              code := code.car;
              op := Op.Eval;
            }
            rc := Going;
          } else {
            rc := GiveBack(code);
          }
        case E0Args =>
          code := Cdr(code);
          op := Collect(Operands);
          rc := Going;
        case Collect(kind) =>
          args := Pair(value, args);
          if code.Pair? {
            var x := ItemOf(kind, code.car);
            if x.None? {
              return Erred;
            }
            SaveRegs(Collect(kind), args, code.cdr);
            code := x.value;
            args := Nil;
            op := Op.Eval;
          } else {
            args := Reverse(Nil, args);
            code := Car(args);
            args := Cdr(args);
            op := AfterItems(kind);
          }
          rc := Going;
        case Apply =>
          rc := Going;
          if code.Sym? && code.role == Native {
            op := Call;
          } else if code.Sym? && code.role.Proc? {
            op := Builtin(code.role.b);
          } else if code.Closure? {
            if !HasParts(code.code) {
              return Broken;
            }
            var b := BindParams(Car(code.code), args);
            if b == BadArgs {
              return Broken;
            }
            if !b.Bound? {
              return Erred;
            }
            PushFrame(code.env, b.frame);
            code := Cdr(code.code);
            args := Nil;
            op := Start(Begin);
          } else {
            rc := Erred;
          }
        case Call =>
          if !code.Sym? {
            return Erred;
          }
          var v := fns(code.name, args);
          if v.None? {
            return Erred;
          }
          rc := GiveBack(v.value);
        case Builtin(b) =>
          if !HasParts(args) {
            return Broken;
          }
          rc := Going;
          match b {
            case PEval =>
              code := Car(args);
              args := Nil;
              op := Op.Eval;
            case PApply =>
              if !HasParts(Cdr(args)) {
                return Broken;
              }
              code := Car(args);
              args := Car(Cdr(args));
              op := Op.Apply;
            case Force =>
              var x := Car(args);
              if x.Closure? && x.promise {
                code := x;
                args := Nil;
                op := Op.Apply;
              } else {
                rc := GiveBack(x);
              }
          }
      }
    }

    /** The beginning of a special form. */
    method SpecialForm(form: Form) returns (rc: Rc)
      requires op == Start(form)
      modifies this
      ensures Is(Step(fns, old(Regs())), rc)
    {
      if (form == If || form == Set || form == Quote || form == Stream) && !HasParts(code) {
        return Broken;
      }
      match form {
        case Lambda => rc := GiveBack(Closure(code, envir, false));
        case Quote => rc := GiveBack(Car(code));
        case Define =>
          if !HasParts(code) {
            return Broken;
          }
          var x;
          if Car(code).Pair? {
            x := Car(Car(code));
            code := Pair(LAMBDA, Pair(Cdr(Car(code)), Cdr(code)));
          } else {
            if !HasParts(Cdr(code)) {
              return Broken;
            }
            x := Car(code);
            code := Car(Cdr(code));
          }
          if !x.Sym? {
            return Erred;
          }
          rc := EvalFirst(code, Def1, Nil, x);
        case Begin =>
          if !code.Pair? {
            rc := GiveBack(code);
            return;
          }
          if code.cdr != Nil {
            SaveRegs(Start(Begin), Nil, code.cdr);
          }
          code := code.car;
          op := Op.Eval;
          rc := Going;
        case If => rc := EvalFirst(Car(code), If1, Nil, Cdr(code));
        case Set =>
          if !HasParts(Cdr(code)) {
            return Broken;
          }
          rc := EvalFirst(Car(Cdr(code)), Set1, Nil, Car(code));
        case Let =>
          if !HasParts(code) || (Car(code).Sym? && !HasParts(Cdr(code))) {
            return Broken;
          }
          args := Nil;
          value := code;
          code := if Car(code).Sym? then Car(Cdr(code)) else Car(code);
          op := Collect(Lets);
          rc := Going;
        case LetStar =>
          if !HasParts(code) {
            return Broken;
          }
          if Car(code) == Nil {
            PushFrame(envir, []);
            code := Cdr(code);
            op := Start(Begin);
            return Going;
          }
          if !Car(code).Pair? {
            return Erred;
          }
          var x := ItemOf(Lets, Car(Car(code)));
          if x.None? {
            return Erred;
          }
          rc := EvalFirst(x.value, LetStar1, Cdr(code), Car(code));
        case LetRec =>
          if !HasParts(code) {
            return Broken;
          }
          PushFrame(envir, []);
          args := Nil;
          value := code;
          code := Car(code);
          op := Collect(LetRecs);
          rc := Going;
        case Cond =>
          if !code.Pair? {
            return Erred;
          }
          rc := TryClause();
        case Delay => rc := GiveBack(Closure(Pair(Nil, code), envir, true));
        case Connect(c) =>
          if code == Nil {
            rc := GiveBack(Bool(c == And));
          } else {
            rc := TryNext(c);
          }
        case Stream => rc := EvalFirst(Car(code), Stream1, Nil, Cdr(code));
      }
    }

    /** The rest of a special form, when a value is there. */
    method Continuation() returns (rc: Rc)
      requires !(op.Eval? || op.E0Args? || op.Collect? || op.Apply? || op.Call? || op.Builtin? || op.Start?)
      modifies this
      ensures Is(Step(fns, old(Regs())), rc)
    {
      match op {
        case Def1 =>
          var k := envir.frame;
          var i := SearchFrame(FrameAt(store, k), code);
          if k < |store| && i < |store[k]| {
            store := Assign(store, Place(k, i), value);
          } else {
            store := AddTo(store, k, code, value);
          }
          rc := GiveBack(code);
        case Set1 =>
          var p := Search(code, envir, store);
          if p.None? {
            return Erred;
          }
          store := Assign(store, p.value, value);
          rc := GiveBack(value);
        case If1 =>
          if !HasParts(code) || (!IsTrue(value) && !HasParts(Cdr(code))) {
            return Broken;
          }
          if IsTrue(value) {
            code := Car(code);
          } else {
            code := Car(Cdr(code));
          }
          op := Op.Eval;
          rc := Going;
        case Let2 =>
          var env := envir;
          var named := Car(code).Sym?;
          var x := if named then Car(Cdr(code)) else Car(code);
          var fr := BindLet(x, args, []);
          var body := if named then Cdr(Cdr(code)) else Cdr(code);
          if named {
            var names := CollectNames(x);
            var loop := Closure(Pair(names, body), Inner(|store|, env), false);
            fr := [Binding(Car(code), loop)] + fr;
          }
          PushFrame(env, fr);
          code := body;
          args := Nil;
          op := Start(Begin);
          rc := Going;
        case LetStar1 =>
          PushFrame(envir, []);
          op := LetStar2;
          rc := Going;
        case LetStar2 =>
          store := AddTo(store, envir.frame, Car(Car(code)), value);
          code := Cdr(code);
          if code.Pair? {
            var x := ItemOf(Lets, code.car);
            if x.None? {
              return Erred;
            }
            SaveRegs(LetStar2, args, code);
            code := x.value;
            args := Nil;
            op := Op.Eval;
          } else {
            code := args;
            args := Nil;
            op := Start(Begin);
          }
          rc := Going;
        case LetRec2 =>
          var k := envir.frame;
          var fr := BindLet(Car(code), args, FrameAt(store, k));
          store := SetFrame(store, k, fr);
          code := Cdr(code);
          args := Nil;
          op := Start(Begin);
          rc := Going;
        case Cond1 =>
          if IsTrue(value) {
            code := Cdr(Car(code));
            if code == Nil {
              rc := GiveBack(value);
              return;
            }
            op := Start(Begin);
            rc := Going;
          } else {
            code := Cdr(code);
            if code == Nil {
              rc := GiveBack(Nil);
            } else {
              rc := TryClause();
            }
          }
        case Connect1(c) =>
          if Settles(c, value) || code == Nil {
            rc := GiveBack(value);
          } else {
            rc := TryNext(c);
          }
        case Stream1 =>
          rc := GiveBack(Pair(value, Closure(Pair(Nil, code), envir, true)));
      }
    }

    /** One operation. */
    method Opexe() returns (rc: Rc)
      modifies this
      ensures Is(Step(fns, old(Regs())), rc)
    {
      hide Step;
      if op.Start? {
        rc := SpecialForm(op.form);
      } else if op.Eval? || op.E0Args? || op.Collect? || op.Apply? || op.Call? || op.Builtin? {
        rc := Expression();
      } else {
        rc := Continuation();
      }
    }

    /** Eval_Cycle, for at most `n` operations. */
    method Cycle(n: nat) returns (rc: Rc)
      modifies this
      ensures Is(Steps(fns, n, Running(old(Regs()))), rc)
    {
      hide Step;
      rc := Going;
      ghost var c := Running(Regs());
      var i := 0;
      while i < n && rc == Going
        invariant i <= n && Is(Steps(fns, i, c), rc)
      {
        StepsAdd(fns, i, 1, c);
        OneStep(fns, Steps(fns, i, c));
        rc := Opexe();
        i := i + 1;
      }
      if i < n {
        StepsAdd(fns, i, n - i, c);
        StepsStay(fns, n - i, Steps(fns, i, c));
      }
    }
  }

  /** A program that means something is through after some number of operations, and then it stays so. */
  lemma SomeCycle(fns: Natives, fuel: nat, program: Val, global: Env, st: Store) returns (n: nat)
    requires !SchemeEval.Eval(fns, fuel, program, global, st).OutOfFuel?
    ensures forall m: nat :: m >= n ==> !Steps(fns, m, StartOf(program, global, st)).Running?
  {
    hide Steps, SchemeEval.Eval;
    n := Complete(fns, fuel, program, global, st);
    var c := StartOf(program, global, st);
    forall m: nat | m >= n ensures !Steps(fns, m, c).Running? {
      StepsAdd(fns, n, m - n, c);
      StepsStay(fns, m - n, Steps(fns, n, c));
    }
  }

  /**
   * A program that comes back to the top level within `n` operations has the value, and leaves the
   * bindings, that it means; it is still going exactly if the machine has not stopped by then.
   */
  method Interpret(fns: Natives, program: Val, global: Env, st: Store, n: nat) returns (rc: Rc, v: Val, st2: Store)
    ensures rc == Going <==> Steps(fns, n, StartOf(program, global, st)).Running?
    ensures rc == Returned ==> SchemeEval.Eval(fns, n + 1, program, global, st) == Ok(v, st2)
    ensures rc == Erred ==> SchemeEval.Eval(fns, n + 1, program, global, st) == Failed
    ensures rc == Broken ==> SchemeEval.Eval(fns, n + 1, program, global, st) == Wild
  {
    hide Steps, SchemeEval.Eval;
    var ctx := new Ctx(fns, program, global, st);
    rc := ctx.Cycle(n);
    v, st2 := ctx.value, ctx.store;
    if rc != Going {
      Sound(fns, n, program, global, st);
    }
  }
}
