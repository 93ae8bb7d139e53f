/**
 * What a program of the query language means: the value of every form in terms of the values of
 * its parts, and the bindings it leaves. `fuel` bounds how deep the evaluation goes.
 */
module SchemeEval {
  import opened Options
  import opened SchemeValues

  /**
   * A result and the bindings it leaves, or an error of the program, or the use of something as
   * a list that is none (where the interpreter reads what it should not), or not enough fuel.
   */
  datatype Out<T> = Ok(v: T, st: Store) | Failed | Wild | OutOfFuel

  /** The expressions of an application, of a let and of a letrec are evaluated one after the other. */
  datatype Kind = Operands | Lets | LetRecs

  /** The expression of one of them; a binding must be a list of a name and an expression. */
  function ItemOf(kind: Kind, x: Val): Option<Val> {
    if kind == Operands then Some(x)
    else if IsList(x) && IsList(Cdr(x)) then Some(Car(Cdr(x)))
    else None
  }

  function SymbolValue(code: Val, env: Env, st: Store): Option<Val>
    requires code.Sym?
  {
    if IsKeyword(code.name) then Some(code)
    else match Find(code, env, st)
      case Some(p) => Some(ValueAt(st, p))
      case None => if code.role.Proc? || code.role.Native? then Some(code) else None
  }

  function Eval(fns: Natives, fuel: nat, code: Val, env: Env, st: Store): Out<Val>
    decreases fuel, 0
  {
    if fuel == 0 then OutOfFuel
    else if code.Sym? then
      match SymbolValue(code, env, st)
      case Some(v) => Ok(v, st)
      case None => Failed
    else if code.Pair? && IsSyntax(code.car) then EvalForm(fns, fuel - 1, code.car.role.form, code.cdr, env, st)
    else if code.Pair? then
      match Eval(fns, fuel - 1, code.car, env, st)
      case Ok(f, st1) => EvalApplied(fns, fuel - 1, f, code.cdr, env, st1)
      case r => r
    else Ok(code, st)
  }

  function EvalApplied(fns: Natives, fuel: nat, f: Val, operands: Val, env: Env, st: Store): Out<Val>
    decreases fuel, 3
  {
    match EvalItems(fns, fuel, Operands, operands, env, st)
    case Ok(args, st1) => Apply(fns, fuel, f, ListOf(args), env, st1)
    case Failed => Failed
    case Wild => Wild
    case OutOfFuel => OutOfFuel
  }

  function EvalItems(fns: Natives, fuel: nat, kind: Kind, code: Val, env: Env, st: Store): Out<seq<Val>>
    decreases fuel, 0
  {
    if fuel == 0 then OutOfFuel
    else if !code.Pair? then Ok([], st)
    else match ItemOf(kind, code.car)
      case None => Failed
      case Some(x) =>
        match Eval(fns, fuel - 1, x, env, st)
        case Failed => Failed
        case Wild => Wild
        case OutOfFuel => OutOfFuel
        case Ok(v, st1) =>
          match EvalItems(fns, fuel - 1, kind, code.cdr, env, st1)
          case Ok(vs, st2) => Ok([v] + vs, st2)
          case r => r
  }

  function Apply(fns: Natives, fuel: nat, f: Val, args: Val, env: Env, st: Store): Out<Val>
    decreases fuel, 2
  {
    if fuel == 0 then OutOfFuel
    else match f
      case Sym(name, Native) => (match fns(name, args) case Some(v) => Ok(v, st) case None => Failed)
      case Sym(_, Proc(b)) => ApplyBuiltin(fns, fuel, b, args, env, st)
      case Closure(code, cenv, _) =>
        if !HasParts(code) then Wild
        else (match BindArgs(Car(code), args, [])
          case Bound(fr) => EvalBody(fns, fuel - 1, Cdr(code), Inner(|st|, cenv), st + [fr])
          case BadArgs => Wild
          case _ => Failed)
      case _ => Failed
  }

  function ApplyBuiltin(fns: Natives, fuel: nat, b: Builtin, args: Val, env: Env, st: Store): Out<Val>
    requires fuel > 0
    decreases fuel, 1
  {
    if !HasParts(args) then Wild
    else match b
      case PEval => Eval(fns, fuel - 1, Car(args), env, st)
      case PApply =>
        if HasParts(Cdr(args)) then Apply(fns, fuel - 1, Car(args), Car(Cdr(args)), env, st) else Wild
      case Force =>
        var x := Car(args);
        if x.Closure? && x.promise then Apply(fns, fuel - 1, x, Nil, env, st) else Ok(x, st)
  }

  /** The expressions of a body, one after the other; the last one gives the value. */
  function EvalBody(fns: Natives, fuel: nat, code: Val, env: Env, st: Store): Out<Val>
    decreases fuel, 0
  {
    if fuel == 0 then OutOfFuel
    else if !code.Pair? then Ok(code, st)
    else if code.cdr == Nil then Eval(fns, fuel - 1, code.car, env, st)
    else match Eval(fns, fuel - 1, code.car, env, st)
      case Ok(_, st1) => EvalBody(fns, fuel - 1, code.cdr, env, st1)
      case r => r
  }

  function EvalForm(fns: Natives, fuel: nat, form: Form, code: Val, env: Env, st: Store): Out<Val>
    decreases fuel, 2
  {
    if fuel == 0 then OutOfFuel
    else match form
      case Lambda => Ok(Closure(code, env, false), st)
      case Quote => if HasParts(code) then Ok(Car(code), st) else Wild
      case Define => EvalDefine(fns, fuel, code, env, st)
      case Begin => EvalBody(fns, fuel, code, env, st)
      case If => EvalIf(fns, fuel, code, env, st)
      case Set => EvalSet(fns, fuel, code, env, st)
      case Let => EvalLet(fns, fuel, code, env, st)
      case LetStar => EvalLetStar(fns, fuel, code, env, st)
      case LetRec => EvalLetRec(fns, fuel, code, env, st)
      case Cond => if code.Pair? then EvalCond(fns, fuel, code, env, st) else Failed
      case Delay => Ok(Closure(Pair(Nil, code), env, true), st)
      case Connect(c) => if code == Nil then Ok(Bool(c == And), st) else EvalConnect(fns, fuel, c, code, env, st)
      case Stream => EvalStream(fns, fuel, code, env, st)
  }

  /** The name that is defined, and the expression it is defined as. */
  function DefinedName(code: Val): Val {
    if Car(code).Pair? then Car(Car(code)) else Car(code)
  }

  function DefinedAs(code: Val): Val {
    if Car(code).Pair? then Pair(LAMBDA, Pair(Cdr(Car(code)), Cdr(code))) else Car(Cdr(code))
  }

  function EvalDefine(fns: Natives, fuel: nat, code: Val, env: Env, st: Store): Out<Val>
    requires fuel > 0
    decreases fuel, 1
  {
    if !HasParts(code) || !(Car(code).Pair? || HasParts(Cdr(code))) then Wild
    else if !DefinedName(code).Sym? then Failed
    else match Eval(fns, fuel - 1, DefinedAs(code), env, st)
      case Ok(v, st1) => Ok(DefinedName(code), DefineIn(st1, env.frame, DefinedName(code), v))
      case r => r
  }

  /** (if c a b); b is () when there is none. */
  function EvalIf(fns: Natives, fuel: nat, code: Val, env: Env, st: Store): Out<Val>
    requires fuel > 0
    decreases fuel, 1
  {
    if !HasParts(code) then Wild
    else match Eval(fns, fuel - 1, Car(code), env, st)
      case Ok(v, st1) =>
        if !HasParts(Cdr(code)) then Wild
        else if IsTrue(v) then Eval(fns, fuel - 1, Car(Cdr(code)), env, st1)
        else if !HasParts(Cdr(Cdr(code))) then Wild
        else Eval(fns, fuel - 1, Car(Cdr(Cdr(code))), env, st1)
      case r => r
  }

  function EvalSet(fns: Natives, fuel: nat, code: Val, env: Env, st: Store): Out<Val>
    requires fuel > 0
    decreases fuel, 1
  {
    if !HasParts(code) || !HasParts(Cdr(code)) then Wild
    else match Eval(fns, fuel - 1, Car(Cdr(code)), env, st)
      case Ok(v, st1) => (match Find(Car(code), env, st1) case Some(p) => Ok(v, Assign(st1, p, v)) case None => Failed)
      case r => r
  }

  function LetBindings(code: Val): Val {
    if Car(code).Sym? then Car(Cdr(code)) else Car(code)
  }

  function LetBody(code: Val): Val {
    if Car(code).Sym? then Cdr(Cdr(code)) else Cdr(code)
  }

  /** The frame of a let: with a name in front, that is a closure with the names of the bindings. */
  function LetStore(code: Val, vals: Val, env: Env, st: Store): Store {
    var fr := LetFrame(LetBindings(code), vals, []);
    var loop := Closure(Pair(Names(LetBindings(code)), LetBody(code)), Inner(|st|, env), false);
    st + [if Car(code).Sym? then [Binding(Car(code), loop)] + fr else fr]
  }

  function EvalLet(fns: Natives, fuel: nat, code: Val, env: Env, st: Store): Out<Val>
    requires fuel > 0
    decreases fuel, 1
  {
    if !HasParts(code) || (Car(code).Sym? && !HasParts(Cdr(code))) then Wild
    else match EvalItems(fns, fuel - 1, Lets, LetBindings(code), env, st)
      case Ok(vs, st1) =>
        EvalBody(fns, fuel - 1, LetBody(code), Inner(|st1|, env), LetStore(code, ListOf(vs), env, st1))
      case Failed => Failed
      case Wild => Wild
      case OutOfFuel => OutOfFuel
  }

  /** Every expression sees the bindings before it. All but the first one are in the new frame. */
  function EvalLetStar(fns: Natives, fuel: nat, code: Val, env: Env, st: Store): Out<Val>
    requires fuel > 0
    decreases fuel, 1
  {
    if !HasParts(code) then Wild
    else if Car(code) == Nil then EvalBody(fns, fuel - 1, Cdr(code), Inner(|st|, env), st + [[]])
    else if !Car(code).Pair? then Failed
    else match ItemOf(Lets, Car(Car(code)))
      case None => Failed
      case Some(x) =>
        match Eval(fns, fuel - 1, x, env, st)
        case Ok(v, st1) =>
          EvalStarRest(fns, fuel - 1, Cdr(Car(code)), Cdr(code), Inner(|st1|, env),
            AddTo(st1 + [[]], |st1|, Car(Car(Car(code))), v))
        case r => r
  }

  function EvalStarRest(fns: Natives, fuel: nat, bindings: Val, body: Val, env: Env, st: Store): Out<Val>
    decreases fuel, 0
  {
    if fuel == 0 then OutOfFuel
    else if !bindings.Pair? then EvalBody(fns, fuel - 1, body, env, st)
    else match ItemOf(Lets, bindings.car)
      case None => Failed
      case Some(x) =>
        match Eval(fns, fuel - 1, x, env, st)
        case Ok(v, st1) =>
          EvalStarRest(fns, fuel - 1, bindings.cdr, body, env, AddTo(st1, env.frame, Car(bindings.car), v))
        case r => r
  }

  /** The expressions are evaluated in the new frame, before it has the bindings. */
  function EvalLetRec(fns: Natives, fuel: nat, code: Val, env: Env, st: Store): Out<Val>
    requires fuel > 0
    decreases fuel, 1
  {
    if !HasParts(code) then Wild
    else match EvalItems(fns, fuel - 1, LetRecs, Car(code), Inner(|st|, env), st + [[]])
      case Ok(vs, st1) =>
        EvalBody(fns, fuel - 1, Cdr(code), Inner(|st|, env),
          SetFrame(st1, |st|, LetFrame(Car(code), ListOf(vs), FrameAt(st1, |st|))))
      case Failed => Failed
      case Wild => Wild
      case OutOfFuel => OutOfFuel
  }

  function EvalCond(fns: Natives, fuel: nat, code: Val, env: Env, st: Store): Out<Val>
    decreases fuel, 1
  {
    if fuel == 0 then OutOfFuel
    else if !HasParts(code) || !HasParts(Car(code)) then Wild
    else match Eval(fns, fuel - 1, Car(Car(code)), env, st)
      case Ok(v, st1) =>
        if IsTrue(v) then
          if Cdr(Car(code)) == Nil then Ok(v, st1) else EvalBody(fns, fuel - 1, Cdr(Car(code)), env, st1)
        else if Cdr(code) == Nil then Ok(Nil, st1)
        else EvalCond(fns, fuel - 1, Cdr(code), env, st1)
      case r => r
  }

  /** The value that settles it: #f for and (the empty list does not), anything true for or. */
  predicate Settles(c: Connective, v: Val) {
    if c == And then v == Bool(false) else IsTrue(v)
  }

  function EvalConnect(fns: Natives, fuel: nat, c: Connective, code: Val, env: Env, st: Store): Out<Val>
    decreases fuel, 1
  {
    if fuel == 0 then OutOfFuel
    else if !HasParts(code) then Wild
    else match Eval(fns, fuel - 1, Car(code), env, st)
      case Ok(v, st1) =>
        if Settles(c, v) || Cdr(code) == Nil then Ok(v, st1)
        else EvalConnect(fns, fuel - 1, c, Cdr(code), env, st1)
      case r => r
  }

  function EvalStream(fns: Natives, fuel: nat, code: Val, env: Env, st: Store): Out<Val>
    requires fuel > 0
    decreases fuel, 1
  {
    if !HasParts(code) then Wild
    else match Eval(fns, fuel - 1, Car(code), env, st)
      case Ok(v, st1) => Ok(Pair(v, Closure(Pair(Nil, Cdr(code)), env, true)), st1)
      case r => r
  }
}
