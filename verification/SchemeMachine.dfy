/**
 * The register machine of the query language (`lib/scm.c`, opexe): one step for every operation.
 * The dump is the stack of what is still to be done: each frame is an operation with the args,
 * envir and code registers it will find.
 */
module SchemeMachine {
  import opened SchemeValues
  import opened SchemeEval

  datatype Op =
    | Eval
    | E0Args
    | Collect(kind: Kind)   // E1ARGS, LET1 and LET1REC
    | Apply
    | Call                  // NATIVE
    | Start(form: Form)     // LAMBDA, QUOTE, DEF0, BEGIN, IF0 ...
    | Builtin(b: Builtin)   // PEVAL, PAPPLY, FORCE
    | Def1
    | Set1
    | If1
    | Let2
    | LetStar1
    | LetStar2
    | LetRec2
    | Cond1
    | Connect1(c: Connective)
    | Stream1

  datatype Dump = Base | Frame(op: Op, args: Val, envir: Env, code: Val, rest: Dump)

  datatype State = State(op: Op, code: Val, args: Val, envir: Env, value: Val, dump: Dump, store: Store)

  /** Back at the top level with a value, stopped by an error, or reading what is no list. */
  datatype Cfg = Running(s: State) | Halted(v: Val, st: Store) | Error | Crashed

  // ---------------------------------------------------------------- save and return

  /** s_save */
  function Save(s: State, op: Op, args: Val, code: Val): State {
    s.(dump := Frame(op, args, s.envir, code, s.dump))
  }

  /** s_return */
  function Return(v: Val, dump: Dump, st: Store): Cfg {
    match dump
    case Base => Halted(v, st)
    case Frame(op, args, envir, code, rest) => Running(State(op, code, args, envir, v, rest, st))
  }

  function Back(s: State, v: Val): Cfg {
    Return(v, s.dump, s.store)
  }

  function EvalNext(s: State, code: Val): Cfg {
    Running(s.(op := Eval, code := code))
  }

  /** First `code`, and then operation `op` with `rest`. */
  function EvalThen(s: State, code: Val, op: Op, args: Val, rest: Val): Cfg {
    EvalNext(Save(s, op, args, rest), code)
  }

  // ---------------------------------------------------------------- expressions and application

  function StepEval(s: State): Cfg {
    if s.code.Sym? then
      match SymbolValue(s.code, s.envir, s.store)
      case Some(v) => Back(s, v)
      case None => Error
    else if s.code.Pair? && IsSyntax(s.code.car) then
      Running(s.(op := Start(s.code.car.role.form), code := s.code.cdr))
    else if s.code.Pair? then EvalThen(s, s.code.car, E0Args, Nil, s.code)
    else Back(s, s.code)
  }

  /** The operator is evaluated; the operands are next. */
  function StepE0Args(s: State): Cfg {
    Running(s.(op := Collect(Operands), code := Cdr(s.code)))
  }

  function AfterItems(kind: Kind): Op {
    match kind
    case Operands => Apply
    case Lets => Let2
    case LetRecs => LetRec2
  }

  /** One more value is put in front of the others; at the end they are put in order. */
  function StepCollect(s: State, kind: Kind): Cfg {
    var args := Pair(s.value, s.args);
    if s.code.Pair? then
      match ItemOf(kind, s.code.car)
      case None => Error
      case Some(x) => EvalThen(s.(args := Nil), x, Collect(kind), args, s.code.cdr)
    else
      var all := RevOnto(Nil, args);
      Running(s.(op := AfterItems(kind), code := Car(all), args := Cdr(all)))
  }

  function StepApply(s: State): Cfg {
    match s.code
    case Sym(_, Native) => Running(s.(op := Call))
    case Sym(_, Proc(b)) => Running(s.(op := Builtin(b)))
    case Closure(code, env, _) =>
      if !HasParts(code) then Crashed
      else (match BindArgs(Car(code), s.args, [])
        case Bound(fr) =>
          Running(s.(op := Start(Begin), code := Cdr(code), args := Nil, envir := Inner(|s.store|, env),
            store := s.store + [fr]))
        case BadArgs => Crashed
        case _ => Error)
    case _ => Error
  }

  function StepCall(fns: Natives, s: State): Cfg {
    if !s.code.Sym? then Error
    else match fns(s.code.name, s.args)
      case Some(v) => Back(s, v)
      case None => Error
  }

  function StepBuiltin(s: State, b: Builtin): Cfg {
    if !HasParts(s.args) then Crashed
    else match b
      case PEval => Running(s.(op := Eval, code := Car(s.args), args := Nil))
      case PApply =>
        if HasParts(Cdr(s.args)) then Running(s.(op := Apply, code := Car(s.args), args := Car(Cdr(s.args))))
        else Crashed
      case Force =>
        var x := Car(s.args);
        if x.Closure? && x.promise then Running(s.(op := Apply, code := x, args := Nil)) else Back(s, x)
  }

  // ---------------------------------------------------------------- the special forms

  function StepStart(s: State, form: Form): Cfg {
    match form
    case Lambda => Back(s, Closure(s.code, s.envir, false))
    case Quote => if HasParts(s.code) then Back(s, Car(s.code)) else Crashed
    case Define => StepDefine(s)
    case Begin => StepBegin(s)
    case If => if HasParts(s.code) then EvalThen(s, Car(s.code), If1, Nil, Cdr(s.code)) else Crashed
    case Set =>
      if HasParts(s.code) && HasParts(Cdr(s.code)) then EvalThen(s, Car(Cdr(s.code)), Set1, Nil, Car(s.code))
      else Crashed
    case Let => StepLet(s)
    case LetStar => StepLetStar(s)
    case LetRec => StepLetRec(s)
    case Cond => if s.code.Pair? then CondNext(s, s.code) else Error
    case Delay => Back(s, Closure(Pair(Nil, s.code), s.envir, true))
    case Connect(c) => if s.code == Nil then Back(s, Bool(c == And)) else ConnectNext(s, c, s.code)
    case Stream => if HasParts(s.code) then EvalThen(s, Car(s.code), Stream1, Nil, Cdr(s.code)) else Crashed
  }

  function StepDefine(s: State): Cfg {
    if !HasParts(s.code) || !(Car(s.code).Pair? || HasParts(Cdr(s.code))) then Crashed
    else if !DefinedName(s.code).Sym? then Error
    else EvalThen(s, DefinedAs(s.code), Def1, Nil, DefinedName(s.code))
  }

  function StepDef1(s: State): Cfg {
    Return(s.code, s.dump, DefineIn(s.store, s.envir.frame, s.code, s.value))
  }

  function StepSet1(s: State): Cfg {
    match Find(s.code, s.envir, s.store)
    case Some(p) => Return(s.value, s.dump, Assign(s.store, p, s.value))
    case None => Error
  }

  function StepBegin(s: State): Cfg {
    if !s.code.Pair? then Back(s, s.code)
    else if s.code.cdr == Nil then EvalNext(s, s.code.car)
    else EvalThen(s, s.code.car, Start(Begin), Nil, s.code.cdr)
  }

  function StepIf1(s: State): Cfg {
    if !HasParts(s.code) then Crashed
    else if IsTrue(s.value) then EvalNext(s, Car(s.code))
    else if HasParts(Cdr(s.code)) then EvalNext(s, Car(Cdr(s.code)))
    else Crashed
  }

  function StepLet(s: State): Cfg {
    if !HasParts(s.code) || (Car(s.code).Sym? && !HasParts(Cdr(s.code))) then Crashed
    else Running(s.(op := Collect(Lets), args := Nil, value := s.code, code := LetBindings(s.code)))
  }

  function StepLet2(s: State): Cfg {
    Running(s.(op := Start(Begin), envir := Inner(|s.store|, s.envir), code := LetBody(s.code), args := Nil,
      store := LetStore(s.code, s.args, s.envir, s.store)))
  }

  function StepLetStar(s: State): Cfg {
    if !HasParts(s.code) then Crashed
    else if Car(s.code) == Nil then
      Running(s.(op := Start(Begin), envir := Inner(|s.store|, s.envir), store := s.store + [[]], code := Cdr(s.code)))
    else if !Car(s.code).Pair? then Error
    else match ItemOf(Lets, Car(Car(s.code)))
      case None => Error
      case Some(x) => EvalThen(s, x, LetStar1, Cdr(s.code), Car(s.code))
  }

  function StepLetStar1(s: State): Cfg {
    Running(s.(op := LetStar2, envir := Inner(|s.store|, s.envir), store := s.store + [[]]))
  }

  function StepLetStar2(s: State): Cfg {
    var s1 := s.(store := AddTo(s.store, s.envir.frame, Car(Car(s.code)), s.value));
    if Cdr(s.code).Pair? then
      match ItemOf(Lets, Cdr(s.code).car)
      case None => Error
      case Some(x) => EvalThen(s1.(args := Nil), x, LetStar2, s.args, Cdr(s.code))
    else Running(s1.(op := Start(Begin), code := s.args, args := Nil))
  }

  function StepLetRec(s: State): Cfg {
    if !HasParts(s.code) then Crashed
    else Running(s.(op := Collect(LetRecs), envir := Inner(|s.store|, s.envir), store := s.store + [[]],
      args := Nil, value := s.code, code := Car(s.code)))
  }

  function StepLetRec2(s: State): Cfg {
    var k := s.envir.frame;
    Running(s.(op := Start(Begin), code := Cdr(s.code), args := Nil,
      store := SetFrame(s.store, k, LetFrame(Car(s.code), s.args, FrameAt(s.store, k)))))
  }

  function CondNext(s: State, code: Val): Cfg {
    if !HasParts(code) || !HasParts(Car(code)) then Crashed
    else EvalThen(s, Car(Car(code)), Cond1, Nil, code)
  }

  function StepCond1(s: State): Cfg {
    if IsTrue(s.value) then
      var body := Cdr(Car(s.code));
      if body == Nil then Back(s, s.value) else Running(s.(op := Start(Begin), code := body))
    else if Cdr(s.code) == Nil then Back(s, Nil)
    else CondNext(s, Cdr(s.code))
  }

  function ConnectNext(s: State, c: Connective, code: Val): Cfg {
    if HasParts(code) then EvalThen(s, Car(code), Connect1(c), Nil, Cdr(code)) else Crashed
  }

  function StepConnect1(s: State, c: Connective): Cfg {
    if Settles(c, s.value) || s.code == Nil then Back(s, s.value) else ConnectNext(s, c, s.code)
  }

  function StepStream1(s: State): Cfg {
    Back(s, Pair(s.value, Closure(Pair(Nil, s.code), s.envir, true)))
  }

  // ---------------------------------------------------------------- steps

  function Step(fns: Natives, s: State): Cfg {
    match s.op
    case Eval => StepEval(s)
    case E0Args => StepE0Args(s)
    case Collect(kind) => StepCollect(s, kind)
    case Apply => StepApply(s)
    case Call => StepCall(fns, s)
    case Start(form) => StepStart(s, form)
    case Builtin(b) => StepBuiltin(s, b)
    case Def1 => StepDef1(s)
    case Set1 => StepSet1(s)
    case If1 => StepIf1(s)
    case Let2 => StepLet2(s)
    case LetStar1 => StepLetStar1(s)
    case LetStar2 => StepLetStar2(s)
    case LetRec2 => StepLetRec2(s)
    case Cond1 => StepCond1(s)
    case Connect1(c) => StepConnect1(s, c)
    case Stream1 => StepStream1(s)
  }

  function Next(fns: Natives, c: Cfg): Cfg {
    if c.Running? then Step(fns, c.s) else c
  }

  function Steps(fns: Natives, n: nat, c: Cfg): Cfg {
    if n == 0 then c else Steps(fns, n - 1, Next(fns, c))
  }

  lemma {:induction false} StepsAdd(fns: Natives, m: nat, n: nat, c: Cfg)
    ensures Steps(fns, m + n, c) == Steps(fns, n, Steps(fns, m, c))
  {
    hide Next;
    if m > 0 {
      StepsAdd(fns, m - 1, n, Next(fns, c));
    }
  }

  /** Once stopped, stopped. */
  lemma {:induction false} StepsStay(fns: Natives, n: nat, c: Cfg)
    requires !c.Running?
    ensures Steps(fns, n, c) == c
  {
    if n > 0 {
      StepsStay(fns, n - 1, c);
    }
  }
}
