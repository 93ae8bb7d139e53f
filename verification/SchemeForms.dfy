/**
 * What an `and` form means (`lib/scm.c` 1533-1551), and when that is what nested `if` forms mean: the
 * two differ over the empty list.
 */
module SchemeForms {
  import opened SchemeValues
  import opened SchemeEval
  import opened SchemeMachine
  import opened SchemeSim

  const AND := Sym("and", Syntax(Connect(And)))
  const IF := Sym("if", Syntax(If))
  const QUOTE := Sym("quote", Syntax(Quote))

  /** The meaning of an expression: its result with enough fuel. */
  ghost predicate Means(fns: Natives, code: Val, env: Env, st: Store, r: Out<Val>) {
    !r.OutOfFuel? && exists f: nat :: SchemeEval.Eval(fns, f, code, env, st) == r
  }

  /** More fuel than the machine takes steps is enough. */
  lemma EnoughFuel(fns: Natives, code: Val, env: Env, st: Store, r: Out<Val>) returns (n: nat)
    requires Means(fns, code, env, st, r)
    ensures forall f: nat :: f >= n ==> SchemeEval.Eval(fns, f, code, env, st) == r
  {
    hide Steps, SchemeEval.Eval;
    var f0: nat :| SchemeEval.Eval(fns, f0, code, env, st) == r;
    var m := Complete(fns, f0, code, env, st);
    n := m + 1;
    var c := StartOf(code, env, st);
    forall f: nat | f >= n ensures SchemeEval.Eval(fns, f, code, env, st) == r {
      if SchemeEval.Eval(fns, f, code, env, st).OutOfFuel? {
        var k := Sim(fns, f, c.s);
        StepsAdd(fns, m, k - m, c);
        StepsStay(fns, k - m, Steps(fns, m, c));
      }
      SameMeaning(fns, f0, f, code, env, st);
    }
  }

  lemma OneMeaning(fns: Natives, code: Val, env: Env, st: Store, r1: Out<Val>, r2: Out<Val>)
    requires Means(fns, code, env, st, r1) && Means(fns, code, env, st, r2)
    ensures r1 == r2
  {
    hide SchemeEval.Eval;
    var n1 := EnoughFuel(fns, code, env, st, r1);
    var n2 := EnoughFuel(fns, code, env, st, r2);
    assert SchemeEval.Eval(fns, n1 + n2, code, env, st) == r1;
  }

  // ---------------------------------------------------------------- the forms

  /** (and x ...) */
  function AndForm(xs: seq<Val>): Val {
    Pair(AND, ListOf(xs))
  }

  /** (if x y #f) */
  function IfElse(x: Val, y: Val): Val {
    Pair(IF, Pair(x, Pair(y, Pair(Bool(false), Nil))))
  }

  /** (if x (if ... #f) #f) */
  function IfForm(xs: seq<Val>): Val
    requires |xs| > 0
  {
    if |xs| == 1 then xs[0] else IfElse(xs[0], IfForm(xs[1..]))
  }

  lemma AndIsConnect(fns: Natives, f: nat, ops: Val, env: Env, st: Store)
    requires ops.Pair? && f >= 2
    ensures SchemeEval.Eval(fns, f, Pair(AND, ops), env, st) == EvalConnect(fns, f - 1, And, ops, env, st)
  {}

  /** `and` stops at #f, and goes on after anything else. */
  lemma EvalAnd(fns: Natives, f: nat, xs: seq<Val>, env: Env, st: Store)
    requires |xs| > 0 && f >= 3
    ensures
      SchemeEval.Eval(fns, f, AndForm(xs), env, st) ==
        match SchemeEval.Eval(fns, f - 2, xs[0], env, st)
        case Ok(v, st1) =>
          if v == Bool(false) || |xs| == 1 then Ok(v, st1) else SchemeEval.Eval(fns, f - 1, AndForm(xs[1..]), env, st1)
        case r => r
  {
    assert ListOf(xs) == Pair(xs[0], ListOf(xs[1..]));
    AndIsConnect(fns, f, ListOf(xs), env, st);
    var r := SchemeEval.Eval(fns, f - 2, xs[0], env, st);
    if |xs| > 1 && r.Ok? {
      AndIsConnect(fns, f - 1, ListOf(xs[1..]), env, r.st);
    }
  }

  lemma EvalIfElse(fns: Natives, f: nat, x: Val, y: Val, env: Env, st: Store)
    requires f >= 3
    ensures
      SchemeEval.Eval(fns, f, IfElse(x, y), env, st) ==
        match SchemeEval.Eval(fns, f - 2, x, env, st)
        case Ok(v, st1) => if IsTrue(v) then SchemeEval.Eval(fns, f - 2, y, env, st1) else Ok(Bool(false), st1)
        case r => r
  {
    var ops := IfElse(x, y).cdr;
    assert SchemeEval.Eval(fns, f, Pair(IF, ops), env, st) == EvalForm(fns, f - 1, If, ops, env, st);
    assert EvalForm(fns, f - 1, If, ops, env, st) == EvalIf(fns, f - 1, ops, env, st);
    var r := SchemeEval.Eval(fns, f - 2, x, env, st);
    if r.Ok? {
      assert SchemeEval.Eval(fns, f - 2, Bool(false), env, r.st) == Ok(Bool(false), r.st);
    }
  }

  // ---------------------------------------------------------------- what they mean

  /** The meaning of an `and` form after its first operand has given `r0`. */
  ghost predicate AndGoesOn(fns: Natives, xs: seq<Val>, env: Env, r0: Out<Val>, r: Out<Val>)
    requires |xs| > 0
  {
    if !r0.Ok? || r0.v == Bool(false) || |xs| == 1 then r == r0 else Means(fns, AndForm(xs[1..]), env, r0.st, r)
  }

  /** ... and of an `if` form. */
  ghost predicate IfGoesOn(fns: Natives, y: Val, env: Env, r0: Out<Val>, r: Out<Val>) {
    if !r0.Ok? then r == r0
    else if IsTrue(r0.v) then Means(fns, y, env, r0.st, r)
    else r == Ok(Bool(false), r0.st)
  }

  lemma MeaningAt(fns: Natives, f: nat, code: Val, env: Env, st: Store, r: Out<Val>)
    requires SchemeEval.Eval(fns, f, code, env, st) == r && !r.OutOfFuel?
    ensures Means(fns, code, env, st, r)
  {}

  /** A form that means something is evaluated with fuel of 3 at least. */
  lemma SomeFuel(fns: Natives, code: Val, env: Env, st: Store, r: Out<Val>) returns (f: nat)
    requires Means(fns, code, env, st, r)
    ensures f >= 3 && SchemeEval.Eval(fns, f, code, env, st) == r
  {
    hide SchemeEval.Eval;
    var n := EnoughFuel(fns, code, env, st, r);
    f := n + 3;
  }

  lemma AndMeans(fns: Natives, xs: seq<Val>, env: Env, st: Store, r: Out<Val>)
    requires |xs| > 0
    ensures Means(fns, AndForm(xs), env, st, r) <==>
              exists r0 :: Means(fns, xs[0], env, st, r0) && AndGoesOn(fns, xs, env, r0, r)
  {
    hide SchemeEval.Eval, AndForm;
    if Means(fns, AndForm(xs), env, st, r) {
      var f := SomeFuel(fns, AndForm(xs), env, st, r);
      EvalAnd(fns, f, xs, env, st);
      var r0 := SchemeEval.Eval(fns, f - 2, xs[0], env, st);
      MeaningAt(fns, f - 2, xs[0], env, st, r0);
      assert AndGoesOn(fns, xs, env, r0, r);
    }
    if r0 :| Means(fns, xs[0], env, st, r0) && AndGoesOn(fns, xs, env, r0, r) {
      var n := EnoughFuel(fns, xs[0], env, st, r0);
      var m := 0;
      if r0.Ok? && r0.v != Bool(false) && |xs| > 1 {
        m := EnoughFuel(fns, AndForm(xs[1..]), env, r0.st, r);
      }
      EvalAnd(fns, n + m + 3, xs, env, st);
      MeaningAt(fns, n + m + 3, AndForm(xs), env, st, r);
    }
  }

  lemma IfMeans(fns: Natives, x: Val, y: Val, env: Env, st: Store, r: Out<Val>)
    ensures Means(fns, IfElse(x, y), env, st, r) <==>
              exists r0 :: Means(fns, x, env, st, r0) && IfGoesOn(fns, y, env, r0, r)
  {
    hide SchemeEval.Eval, IfElse;
    if Means(fns, IfElse(x, y), env, st, r) {
      var f := SomeFuel(fns, IfElse(x, y), env, st, r);
      EvalIfElse(fns, f, x, y, env, st);
      var r0 := SchemeEval.Eval(fns, f - 2, x, env, st);
      MeaningAt(fns, f - 2, x, env, st, r0);
      assert IfGoesOn(fns, y, env, r0, r);
    }
    if r0 :| Means(fns, x, env, st, r0) && IfGoesOn(fns, y, env, r0, r) {
      var n := EnoughFuel(fns, x, env, st, r0);
      var m := 0;
      if r0.Ok? && IsTrue(r0.v) {
        m := EnoughFuel(fns, y, env, r0.st, r);
      }
      EvalIfElse(fns, n + m + 3, x, y, env, st);
      MeaningAt(fns, n + m + 3, IfElse(x, y), env, st, r);
    }
  }

  // ---------------------------------------------------------------- when they mean the same

  /** The and form and the nested if form have the same meaning, or both have none. */
  ghost predicate Agree(fns: Natives, xs: seq<Val>, env: Env, st: Store)
    requires |xs| > 0
  {
    forall r :: Means(fns, AndForm(xs), env, st, r) <==> Means(fns, IfForm(xs), env, st, r)
  }

  /** An operand before the last is the first one that is not true; it is the empty list, and `rest` comes after it. */
  ghost predicate EmptyBefore(fns: Natives, xs: seq<Val>, env: Env, st: Store, rest: seq<Val>, st2: Store) {
    && |xs| > 1
    && exists v, st1 ::
         && Means(fns, xs[0], env, st, Ok(v, st1))
         && if v == Nil then rest == xs[1..] && st2 == st1
            else IsTrue(v) && EmptyBefore(fns, xs[1..], env, st1, rest, st2)
  }

  /** What comes after the empty list would have to give #f and to change nothing. */
  ghost predicate Harmless(fns: Natives, xs: seq<Val>, env: Env, st: Store) {
    forall rest, st2 ::
      EmptyBefore(fns, xs, env, st, rest, st2) ==> Means(fns, AndForm(rest), env, st2, Ok(Bool(false), st2))
  }

  /** What the forms mean, and where the first empty operand is, by the meaning of the first operand. */
  lemma ByFirst(fns: Natives, xs: seq<Val>, env: Env, st: Store, r0: Out<Val>)
    requires |xs| > 1 && Means(fns, xs[0], env, st, r0)
    ensures forall r :: Means(fns, AndForm(xs), env, st, r) <==> AndGoesOn(fns, xs, env, r0, r)
    ensures forall r :: Means(fns, IfForm(xs), env, st, r) <==> IfGoesOn(fns, IfForm(xs[1..]), env, r0, r)
    ensures forall rest, st2 :: EmptyBefore(fns, xs, env, st, rest, st2) <==> (r0.Ok? &&
              if r0.v == Nil then rest == xs[1..] && st2 == r0.st
              else IsTrue(r0.v) && EmptyBefore(fns, xs[1..], env, r0.st, rest, st2))
  {
    hide Means, AndForm, IfElse, AndGoesOn, IfGoesOn;
    forall r
      ensures Means(fns, AndForm(xs), env, st, r) <==> AndGoesOn(fns, xs, env, r0, r)
      ensures Means(fns, IfForm(xs), env, st, r) <==> IfGoesOn(fns, IfForm(xs[1..]), env, r0, r)
    {
      AndMeans(fns, xs, env, st, r);
      IfMeans(fns, xs[0], IfForm(xs[1..]), env, st, r);
      forall r1 | Means(fns, xs[0], env, st, r1) ensures r1 == r0 {
        OneMeaning(fns, xs[0], env, st, r0, r1);
      }
    }
    forall v, st1 | Means(fns, xs[0], env, st, Ok(v, st1)) ensures r0 == Ok(v, st1) {
      OneMeaning(fns, xs[0], env, st, r0, Ok(v, st1));
    }
  }

  lemma AfterTrue(fns: Natives, xs: seq<Val>, env: Env, st: Store, r0: Out<Val>)
    requires |xs| > 1 && Means(fns, xs[0], env, st, r0) && r0.Ok? && IsTrue(r0.v)
    ensures Agree(fns, xs, env, st) <==> Agree(fns, xs[1..], env, r0.st)
    ensures Harmless(fns, xs, env, st) <==> Harmless(fns, xs[1..], env, r0.st)
  {
    hide Means, AndForm, IfElse, IfForm, EmptyBefore;
    ByFirst(fns, xs, env, st, r0);
    forall r
      ensures Means(fns, AndForm(xs), env, st, r) <==> Means(fns, AndForm(xs[1..]), env, r0.st, r)
      ensures Means(fns, IfForm(xs), env, st, r) <==> Means(fns, IfForm(xs[1..]), env, r0.st, r)
    {
      assert IfGoesOn(fns, IfForm(xs[1..]), env, r0, r) <==> Means(fns, IfForm(xs[1..]), env, r0.st, r);
    }
  }

  /**
   * An `and` form means the same as the nested `if` form exactly when no operand before the last
   * evaluates to the empty list, or what comes after it has the value #f and leaves the bindings alone.
   */
  lemma {:induction false} AndIsIf(fns: Natives, xs: seq<Val>, env: Env, st: Store)
    requires |xs| > 0
    ensures Agree(fns, xs, env, st) <==> Harmless(fns, xs, env, st)
    decreases |xs|
  {
    hide Means, AndForm, IfElse;
    if |xs| == 1 {
      forall r ensures Means(fns, AndForm(xs), env, st, r) <==> Means(fns, xs[0], env, st, r) {
        AndMeans(fns, xs, env, st, r);
      }
    } else if r0 :| Means(fns, xs[0], env, st, r0) {
      ByFirst(fns, xs, env, st, r0);
      if r0.Ok? && IsTrue(r0.v) {
        AndIsIf(fns, xs[1..], env, r0.st);
        AfterTrue(fns, xs, env, st, r0);
      } else if r0.Ok? && r0.v == Nil {
        AfterEmpty(fns, xs, env, st, r0);
      }
    } else {
      forall r ensures !Means(fns, AndForm(xs), env, st, r) && !Means(fns, IfForm(xs), env, st, r) {
        AndMeans(fns, xs, env, st, r);
        IfMeans(fns, xs[0], IfForm(xs[1..]), env, st, r);
      }
    }
  }

  lemma AfterEmpty(fns: Natives, xs: seq<Val>, env: Env, st: Store, r0: Out<Val>)
    requires |xs| > 1 && Means(fns, xs[0], env, st, r0) && r0.Ok? && r0.v == Nil
    ensures Agree(fns, xs, env, st) <==> Means(fns, AndForm(xs[1..]), env, r0.st, Ok(Bool(false), r0.st))
    ensures Harmless(fns, xs, env, st) <==> Means(fns, AndForm(xs[1..]), env, r0.st, Ok(Bool(false), r0.st))
  {
    hide Means, AndForm, IfElse, IfForm;
    ByFirst(fns, xs, env, st, r0);
    var no := Ok(Bool(false), r0.st);
    assert IfGoesOn(fns, IfForm(xs[1..]), env, r0, no);
    assert EmptyBefore(fns, xs, env, st, xs[1..], r0.st);
    forall r | Means(fns, AndForm(xs[1..]), env, r0.st, r) && Means(fns, AndForm(xs[1..]), env, r0.st, no)
      ensures r == no
    {
      OneMeaning(fns, AndForm(xs[1..]), env, r0.st, r, no);
    }
  }

  /** (and '() 1) is 1, although (if '() 1 2) is 2. */
  lemma AndAfterEmpty(fns: Natives, fuel: nat, env: Env, st: Store)
    requires fuel >= 5
    ensures
      var empty := Pair(QUOTE, Pair(Nil, Nil));
      && SchemeEval.Eval(fns, fuel, Pair(AND, Pair(empty, Pair(Number(1), Nil))), env, st) == Ok(Number(1), st)
      && SchemeEval.Eval(fns, fuel, Pair(IF, Pair(empty, Pair(Number(1), Pair(Number(2), Nil)))), env, st) ==
        Ok(Number(2), st)
  {
    var empty := Pair(QUOTE, Pair(Nil, Nil));
    forall f: nat | f >= 2 ensures SchemeEval.Eval(fns, f, empty, env, st) == Ok(Nil, st) {
      assert SchemeEval.Eval(fns, f, empty, env, st) == EvalForm(fns, f - 1, Quote, Pair(Nil, Nil), env, st);
    }
    assert SchemeEval.Eval(fns, fuel - 2, empty, env, st) == Ok(Nil, st);
    var both := Pair(empty, Pair(Number(1), Nil));
    assert SchemeEval.Eval(fns, fuel, Pair(AND, both), env, st) == EvalForm(fns, fuel - 1, Connect(And), both, env, st);
    assert EvalForm(fns, fuel - 1, Connect(And), both, env, st) == EvalConnect(fns, fuel - 1, And, both, env, st);
    assert EvalConnect(fns, fuel - 2, And, Pair(Number(1), Nil), env, st) == Ok(Number(1), st);
    var branches := Pair(empty, Pair(Number(1), Pair(Number(2), Nil)));
    assert SchemeEval.Eval(fns, fuel, Pair(IF, branches), env, st) == EvalForm(fns, fuel - 1, If, branches, env, st);
    assert EvalForm(fns, fuel - 1, If, branches, env, st) == EvalIf(fns, fuel - 1, branches, env, st);
    assert SchemeEval.Eval(fns, fuel - 2, Number(2), env, st) == Ok(Number(2), st);
  }
}
