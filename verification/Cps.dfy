/** Continuation-passing style. */
module Cps {
  import opened Ast
  import opened Lists
  import opened Wrappers

  /** The work a conversion has to do; an ifeq in operator position is first turned into a let. */
  function Weight(e: Exp): nat {
    match e
    case Value(_) => 1
    case Var(_) => 1
    case Lambda(_, b) => 1 + Weight(b)
    case Call(f, es) => 2 + Weight(f) + WeightAll(es) + if f.Ifeq? then 10 else 0
    case Ifeq(a, b, y, n) => 2 + Weight(a) + Weight(b) + Weight(y) + Weight(n)
  }

  function WeightAll(es: seq<Exp>): nat {
    if es == [] then 0 else Weight(es[0]) + 1 + WeightAll(es[1..])
  }

  /** cps-exp: e, passing its value to cont; `free` is the next unused name. */
  function CpsExp(e: Exp, cont: Exp, free: nat): (Exp, nat)
    decreases Weight(e), 2
  {
    match e
    case Value(_) => (Call(cont, [e]), free)
    case Var(_) => (Call(cont, [e]), free)
    case Lambda(fs, b) =>
      var (lexp, free1) := CpsLambda(fs, b, free);
      (Call(cont, [lexp]), free1)
    case Call(f, es) => CpsCall(f, es, cont, free)
    case Ifeq(a, b, y, n) => CpsIfeq(a, b, y, n, cont, free)
  }

  /** cps-just-lambda: the continuation comes as a first argument. */
  function CpsLambda(fs: seq<nat>, b: Exp, free: nat): (Exp, nat)
    decreases Weight(b), 3
  {
    var (body, free1) := CpsExp(b, Var(free), free + 1);
    (Lambda([free] + fs, body), free1)
  }

  /** cps-args: operands that are calls or ifeqs are computed first, from left to right, and named;
      `call` holds the operator and the operands before these, last one first. */
  function CpsArgs(es: seq<Exp>, call: seq<Exp>, free: nat): (Exp, nat)
    requires call != []
    decreases WeightAll(es), 3
  {
    if es == [] then
      var all := Reversed(call);
      (Call(all[0], all[1..]), free)
    else match es[0]
      case Lambda(fs, b) =>
        assert Weight(es[0]) == 1 + Weight(b);
        var (lexp, free1) := CpsLambda(fs, b, free);
        CpsArgs(es[1..], [lexp] + call, free1)
      case Value(_) => CpsArgs(es[1..], [es[0]] + call, free)
      case Var(_) => CpsArgs(es[1..], [es[0]] + call, free)
      case _ =>
        var (rest, free1) := CpsArgs(es[1..], [Var(free)] + call, free + 1);
        CpsExp(es[0], Lambda([free], rest), free1)
  }

  function CpsCall(f: Exp, es: seq<Exp>, cont: Exp, free: nat): (Exp, nat)
    decreases Weight(f) + WeightAll(es) + (if f.Ifeq? then 10 else 0) + 1, 3
  {
    match f
    case Lambda(fs, b) =>
      var (body, free1) := CpsExp(b, cont, free);
      if fs == [] then (body, free1) else CpsArgs(es, [Lambda(fs, body)], free1)
    case Call(_, _) =>
      var (call, free1) := CpsArgs(es, [cont, Var(free)], free + 1);
      CpsExp(f, Lambda([free], call), free1)
    case Ifeq(_, _, _, _) =>
      var named := Lambda([free], Call(Var(free), es));
      assert WeightAll([f]) == Weight(f) + 1 && Weight(Call(Var(free), es)) == 3 + WeightAll(es);
      assert Weight(Call(named, [f])) == 2 + Weight(named) + WeightAll([f]);
      CpsExp(Call(named, [f]), cont, free + 1)
    case _ => CpsArgs(es, [cont, f], free)
  }

  function CpsIfeq(a: Exp, b: Exp, y: Exp, n: Exp, cont: Exp, free: nat): (Exp, nat)
    decreases Weight(a) + Weight(b) + Weight(y) + Weight(n) + 1,
              (if a.Call? then 1 else 0) + (if b.Call? then 1 else 0) + if cont.Var? then 0 else 3, 0
  {
    if !cont.Var? then
      var (e, free1) := CpsIfeq(a, b, y, n, Var(free), free + 1);
      (Call(Lambda([free], e), [cont]), free1)
    else if a.Call? then
      var (rest, free1) := CpsIfeq(Var(free), b, y, n, cont, free + 1);
      CpsExp(a, Lambda([free], rest), free1)
    else if b.Call? then
      var (rest, free1) := CpsIfeq(a, Var(free), y, n, cont, free + 1);
      CpsExp(b, Lambda([free], rest), free1)
    else
      var (yes, free1) := CpsExp(y, cont, free);
      var (no, free2) := CpsExp(n, cont, free1);
      (Ifeq(a, b, yes, no), free2)
  }

  /** cps: a whole program, as a function of its continuation. */
  function CpsProgram(e: Exp, free: nat): Exp {
    Lambda([free], CpsExp(e, Var(free), free + 1).0)
  }

  // ---- Names ----

  lemma {:induction false} FreeAllJoin(a: seq<Exp>, b: seq<Exp>)
    ensures FreeAll(a + b) == FreeAll(a) + FreeAll(b)
  {
    if a == [] {
      assert a + b == b;
    } else {
      assert (a + b)[1..] == a[1..] + b;
      FreeAllJoin(a[1..], b);
    }
  }

  lemma {:induction false} FreeAllReversed(es: seq<Exp>)
    ensures FreeAll(Reversed(es)) == FreeAll(es)
  {
    if es != [] {
      FreeAllReversed(es[1..]);
      FreeAllJoin(Reversed(es[1..]), [es[0]]);
      assert FreeAll([es[0]]) == Free(es[0]);
    }
  }

  lemma FreeCallReversed(call: seq<Exp>)
    requires call != []
    ensures Free(Call(Reversed(call)[0], Reversed(call)[1..])) == FreeAll(call)
  {
    FreeAllReversed(call);
  }

  /** Conversion frees no names, and counts up. */
  lemma {:induction false} CpsFree(e: Exp, cont: Exp, free: nat)
    ensures Free(CpsExp(e, cont, free).0) <= Free(e) + Free(cont) && CpsExp(e, cont, free).1 >= free
    decreases Weight(e), 2
  {
    match e
    case Value(_) => assert FreeAll([e]) == Free(e);
    case Var(_) => assert FreeAll([e]) == Free(e);
    case Lambda(fs, b) =>
      CpsLambdaFree(fs, b, free);
      var lexp := CpsLambda(fs, b, free).0;
      assert FreeAll([lexp]) == Free(lexp);
    case Call(f, es) => CpsCallFree(f, es, cont, free);
    case Ifeq(a, b, y, n) => CpsIfeqFree(a, b, y, n, cont, free);
  }

  lemma {:induction false} CpsLambdaFree(fs: seq<nat>, b: Exp, free: nat)
    ensures Free(CpsLambda(fs, b, free).0) <= Free(b) - Elems(fs) && CpsLambda(fs, b, free).1 >= free
    decreases Weight(b), 3
  {
    CpsFree(b, Var(free), free + 1);
    assert Elems([free] + fs) == {free} + Elems(fs);
  }

  lemma {:induction false} CpsArgsFree(es: seq<Exp>, call: seq<Exp>, free: nat)
    requires call != []
    ensures Free(CpsArgs(es, call, free).0) <= FreeAll(es) + FreeAll(call) && CpsArgs(es, call, free).1 >= free
    decreases WeightAll(es), 3
  {
    hide CpsExp;
    if es == [] {
      FreeCallReversed(call);
    } else {
      match es[0]
      case Lambda(fs, b) =>
        assert Weight(es[0]) == 1 + Weight(b);
        CpsLambdaFree(fs, b, free);
        var (lexp, free1) := CpsLambda(fs, b, free);
        CpsArgsFree(es[1..], [lexp] + call, free1);
        FreeAllJoin([lexp], call);
      case Value(_) =>
        CpsArgsFree(es[1..], [es[0]] + call, free);
        FreeAllJoin([es[0]], call);
      case Var(_) =>
        CpsArgsFree(es[1..], [es[0]] + call, free);
        FreeAllJoin([es[0]], call);
      case _ =>
        CpsArgsFree(es[1..], [Var(free)] + call, free + 1);
        FreeAllJoin([Var(free)], call);
        var (rest, free1) := CpsArgs(es[1..], [Var(free)] + call, free + 1);
        CpsFree(es[0], Lambda([free], rest), free1);
    }
  }

  lemma FreePair(a: Exp, b: Exp)
    ensures FreeAll([a, b]) == Free(a) + Free(b) && FreeAll([a]) == Free(a)
  {
    assert [a, b][1..] == [b];
    assert FreeAll([b]) == Free(b);
  }

  lemma {:induction false} CpsCallFree(f: Exp, es: seq<Exp>, cont: Exp, free: nat)
    ensures Free(CpsCall(f, es, cont, free).0) <= Free(f) + FreeAll(es) + Free(cont)
         && CpsCall(f, es, cont, free).1 >= free
    decreases Weight(f) + WeightAll(es) + (if f.Ifeq? then 10 else 0) + 1, 3
  {
    match f
    case Lambda(fs, b) =>
      CpsFree(b, cont, free);
      var (body, free1) := CpsExp(b, cont, free);
      if fs != [] {
        CpsArgsFree(es, [Lambda(fs, body)], free1);
        FreePair(Lambda(fs, body), f);
      }
    case Call(_, _) =>
      CpsArgsFree(es, [cont, Var(free)], free + 1);
      FreePair(cont, Var(free));
      var (call, free1) := CpsArgs(es, [cont, Var(free)], free + 1);
      CpsFree(f, Lambda([free], call), free1);
    case Ifeq(_, _, _, _) =>
      var named := Lambda([free], Call(Var(free), es));
      assert [f][1..] == [] && WeightAll([f][1..]) == 0;
      assert WeightAll([f]) == Weight(f) + 1;
      assert Weight(Var(free)) == 1;
      assert Weight(Call(Var(free), es)) == 3 + WeightAll(es);
      assert Weight(Call(named, [f])) == 2 + Weight(named) + WeightAll([f]);
      CpsFree(Call(named, [f]), cont, free + 1);
      FreePair(f, f);
      assert Free(Call(Var(free), es)) == {free} + FreeAll(es) && Elems([free]) == {free};
      assert Free(named) <= FreeAll(es) && Free(Call(named, [f])) == Free(named) + FreeAll([f]);
    case _ =>
      CpsArgsFree(es, [cont, f], free);
      FreePair(cont, f);
  }

  lemma {:induction false} CpsIfeqFree(a: Exp, b: Exp, y: Exp, n: Exp, cont: Exp, free: nat)
    ensures Free(CpsIfeq(a, b, y, n, cont, free).0) <= Free(a) + Free(b) + Free(y) + Free(n) + Free(cont)
    ensures CpsIfeq(a, b, y, n, cont, free).1 >= free
    decreases Weight(a) + Weight(b) + Weight(y) + Weight(n) + 1,
              (if a.Call? then 1 else 0) + (if b.Call? then 1 else 0) + if cont.Var? then 0 else 3, 0
  {
    if !cont.Var? {
      CpsIfeqFree(a, b, y, n, Var(free), free + 1);
      FreePair(cont, cont);
    } else if a.Call? {
      CpsIfeqFree(Var(free), b, y, n, cont, free + 1);
      var (rest, free1) := CpsIfeq(Var(free), b, y, n, cont, free + 1);
      CpsFree(a, Lambda([free], rest), free1);
    } else if b.Call? {
      CpsIfeqFree(a, Var(free), y, n, cont, free + 1);
      var (rest, free1) := CpsIfeq(a, Var(free), y, n, cont, free + 1);
      CpsFree(b, Lambda([free], rest), free1);
    } else {
      CpsFree(y, cont, free);
      CpsFree(n, cont, CpsExp(y, cont, free).1);
    }
  }

  // ---- Programs that can be converted ----

  /** The operands of an ifeq are variables, values or calls, and no primitive binds its results. */
  predicate Proper(e: Exp) {
    match e
    case Value(_) => true
    case Var(_) => true
    case Lambda(_, b) => Proper(b)
    case Call(f, es) => Proper(f) && ProperAll(es) && !(f.Value? && f.val.Op? && f.val.op in {32, 49})
    case Ifeq(a, b, y, n) =>
      && Proper(a) && Proper(b) && Proper(y) && Proper(n)
      && (a.Value? || a.Var? || a.Call?) && (b.Value? || b.Var? || b.Call?)
  }

  predicate ProperAll(es: seq<Exp>) {
    es == [] || (Proper(es[0]) && ProperAll(es[1..]))
  }

  predicate AllBelow(names: set<nat>, free: nat) {
    forall x :: x in names ==> x < free
  }

  lemma BelowJoin(a: set<nat>, b: set<nat>, c: set<nat>, free: nat, free': nat)
    requires AllBelow(a, free) && AllBelow(b, free) && c <= a + b && free <= free'
    ensures AllBelow(c, free')
  {
  }

  /** Alpha-converted: names are bound once, differently from those in scope, and all are below free. */
  predicate Scoped(e: Exp, scope: set<nat>, free: nat) {
    && Proper(e) && Unique(e) && Free(e) <= scope && Binders(e) !! scope
    && AllBelow(scope, free) && AllBelow(Binders(e), free)
  }

  predicate ScopedAll(es: seq<Exp>, scope: set<nat>, free: nat) {
    && ProperAll(es) && UniqueAll(es) && FreeAll(es) <= scope && BindersAll(es) !! scope
    && AllBelow(scope, free) && AllBelow(BindersAll(es), free)
  }

  // ---- Values before and after ----

  /** w is what v has become: the same constant, or a closure with converted code over an environment
      that has what the old one had. */
  ghost predicate Rel(v: Val, w: Val)
    decreases v, 0
  {
    match v
    case Const(_) => w == v
    case Clo(env, fs, b) =>
      && w.Clo? && |w.formals| == |fs| + 1 && w.formals[1..] == fs
      && w.body == CpsExp(b, Var(w.formals[0]), w.formals[0] + 1).0
      && Distinct(fs) && Elems(fs) !! Dom(env)
      && Scoped(b, Dom(env) + Elems(fs), w.formals[0])
      && EnvRel(env, w.env, {})
  }

  ghost predicate EnvRel(env: Env, tenv: Env, hidden: set<nat>)
    decreases env, 1
  {
    match env
    case Empty => true
    case Bind(x, v, rest) =>
      && (x in hidden || (Lookup(tenv, x).Some? && Rel(v, Lookup(tenv, x).value)))
      && EnvRel(rest, tenv, hidden + {x})
  }

  ghost predicate RelAll(vs: seq<Val>, ws: seq<Val>) {
    |vs| == |ws| && forall i :: 0 <= i < |vs| ==> Rel(vs[i], ws[i])
  }

  lemma {:induction false} EnvRelLookup(env: Env, tenv: Env, hidden: set<nat>, x: nat)
    requires EnvRel(env, tenv, hidden) && x !in hidden && Lookup(env, x).Some?
    ensures Lookup(tenv, x).Some? && Rel(Lookup(env, x).value, Lookup(tenv, x).value)
  {
    match env
    case Bind(y, v, rest) => if x != y { EnvRelLookup(rest, tenv, hidden + {y}, x); }
  }

  lemma {:induction false} EnvRelAgree(env: Env, t1: Env, t2: Env, h1: set<nat>, h2: set<nat>)
    requires EnvRel(env, t1, h1) && h1 <= h2
    requires forall x :: x in Dom(env) && x !in h2 ==> Lookup(t2, x) == Lookup(t1, x)
    ensures EnvRel(env, t2, h2)
  {
    match env
    case Empty =>
    case Bind(y, v, rest) => EnvRelAgree(rest, t1, t2, h1 + {y}, h2 + {y});
  }

  lemma EnvRelBind(env: Env, tenv: Env, x: nat, v: Val, w: Val)
    requires EnvRel(env, tenv, {}) && Rel(v, w)
    ensures EnvRel(Bind(x, v, env), Bind(x, w, tenv), {})
  {
    EnvRelAgree(env, tenv, Bind(x, w, tenv), {}, {} + {x});
  }

  lemma {:induction false} EnvRelBindAll(env: Env, tenv: Env, fs: seq<nat>, vs: seq<Val>, ws: seq<Val>)
    requires EnvRel(env, tenv, {}) && RelAll(vs, ws) && |fs| == |vs|
    ensures EnvRel(BindAll(env, fs, vs), BindAll(tenv, fs, ws), {})
    decreases |fs|
  {
    if fs != [] {
      EnvRelBind(env, tenv, fs[0], vs[0], ws[0]);
      EnvRelBindAll(Bind(fs[0], vs[0], env), Bind(fs[0], ws[0], tenv), fs[1..], vs[1..], ws[1..]);
    }
  }

  lemma SameRel(va: Val, wa: Val, vb: Val, wb: Val)
    requires Rel(va, wa) && Rel(vb, wb) && Same(va, vb).Some?
    ensures Same(wa, wb) == Same(va, vb)
  {
  }

  lemma {:induction false} NumbersRel(vs: seq<Val>, ws: seq<Val>)
    requires RelAll(vs, ws) && Numbers(vs).Some?
    ensures Numbers(ws) == Numbers(vs)
  {
    if vs != [] { NumbersRel(vs[1..], ws[1..]); }
  }

  // ---- What conversion keeps ----

  /** The names generated between two values of the counter. */
  function Gens(from: nat, to: nat): (s: set<nat>)
    ensures forall x :: x in s <==> from <= x < to
    decreases if from < to then to - from else 0
  {
    if from >= to then {} else {from} + Gens(from + 1, to)
  }

  /** The environments have the same values for all names but some. */
  ghost predicate Agree(t1: Env, t2: Env, but: set<nat>) {
    forall x :: x !in but ==> Lookup(t2, x) == Lookup(t1, x)
  }

  /** Running e comes to running rest, in an environment that has changed for some names only. */
  ghost predicate Reaches(delta: Delta, m: nat, e: Exp, t1: Env, rest: Exp, t2: Env, but: set<nat>) {
    Agree(t1, t2, but) && Steps(delta, m, Ev(e, t1)) == Some(Ev(rest, t2))
  }

  /** Running e comes to calling the continuation with w. */
  ghost predicate Passes(delta: Delta, m: nat, e: Exp, t1: Env, cont: Exp, t2: Env, w: Val, but: set<nat>) {
    && Agree(t1, t2, but) && AtomVal(cont, t2).Some?
    && Steps(delta, m, Ev(e, t1)) == Some(Ap(AtomVal(cont, t2).value, [w]))
  }

  lemma ReachThen(delta: Delta, m1: nat, e: Exp, t1: Env, e2: Exp, t2: Env, b1: set<nat>, m2: nat, e3: Exp, t3: Env,
          b2: set<nat>, but: set<nat>)
    requires Reaches(delta, m1, e, t1, e2, t2, b1) && Reaches(delta, m2, e2, t2, e3, t3, b2) && b1 <= but && b2 <= but
    ensures Reaches(delta, m1 + m2, e, t1, e3, t3, but)
  {
    StepsJoin(delta, m1, m2, Ev(e, t1), Ev(e2, t2));
  }

  lemma ReachPass(delta: Delta, m1: nat, e: Exp, t1: Env, e2: Exp, t2: Env, b1: set<nat>, m2: nat, cont: Exp,
          t3: Env, w: Val, b2: set<nat>, but: set<nat>)
    requires Reaches(delta, m1, e, t1, e2, t2, b1) && Passes(delta, m2, e2, t2, cont, t3, w, b2)
    requires b1 <= but && b2 <= but
    ensures Passes(delta, m1 + m2, e, t1, cont, t3, w, but)
  {
    StepsJoin(delta, m1, m2, Ev(e, t1), Ev(e2, t2));
  }

  lemma PassMore(delta: Delta, m: nat, e: Exp, t1: Env, cont: Exp, t2: Env, w: Val, b: set<nat>, but: set<nat>)
    requires Passes(delta, m, e, t1, cont, t2, w, b) && b <= but
    ensures Passes(delta, m, e, t1, cont, t2, w, but)
  {
  }

  lemma ReachMore(delta: Delta, m: nat, e: Exp, t1: Env, rest: Exp, t2: Env, b: set<nat>, but: set<nat>)
    requires Reaches(delta, m, e, t1, rest, t2, b) && b <= but
    ensures Reaches(delta, m, e, t1, rest, t2, but)
  {
  }

  /** A continuation that the names in a set, and the generated ones, do not concern. */
  ghost predicate ContOk(cont: Exp, names: set<nat>, free: nat, tenv: Env) {
    && (cont.Var? || cont.Lambda?)
    && Free(cont) !! names && AllBelow(Free(cont), free)
    && (cont.Var? ==> Lookup(tenv, cont.name).Some?)
  }

  lemma ContAfter(cont: Exp, names: set<nat>, free: nat, t1: Env, t2: Env, b: set<nat>, g: set<nat>,
          names': set<nat>, free': nat)
    requires ContOk(cont, names, free, t1) && Agree(t1, t2, b + g)
    requires b <= names && AllFrom(g, free) && names' <= names && free <= free'
    ensures ContOk(cont, names', free', t2) && AtomVal(cont, t2).Some?
  {
  }

  predicate AllFrom(names: set<nat>, free: nat) {
    forall x :: x in names ==> x >= free
  }

  lemma ContNarrow(cont: Exp, names: set<nat>, free: nat, t: Env, names': set<nat>, free': nat)
    requires ContOk(cont, names, free, t) && names' <= names && free <= free'
    ensures ContOk(cont, names', free', t)
  {
  }

  lemma AtomStays(a: Exp, free: nat, t1: Env, t2: Env, b: set<nat>, g: set<nat>)
    requires (a.Var? || a.Value?) && Free(a) !! b && AllBelow(Free(a), free)
    requires Agree(t1, t2, b + g) && AllFrom(g, free)
    ensures AtomVal(a, t2) == AtomVal(a, t1)
  {
  }

  lemma RelAllComputes(delta: Delta, op: nat, vs: seq<Val>, ws: seq<Val>)
    requires RelAll(vs, ws) && Compute(delta, op, vs).Some?
    ensures Compute(delta, op, ws) == Compute(delta, op, vs)
    ensures Rel(Compute(delta, op, vs).value, Compute(delta, op, vs).value)
  {
    NumbersRel(vs, ws);
  }

  /** A converted lambda has a related value wherever the variables have. */
  lemma LambdaRel(fs: seq<nat>, b: Exp, env: Env, tenv: Env, k: nat)
    requires Scoped(Lambda(fs, b), Dom(env), k) && EnvRel(env, tenv, {})
    ensures Rel(Clo(env, fs, b), Clo(tenv, [k] + fs, CpsExp(b, Var(k), k + 1).0))
  {
    assert ([k] + fs)[1..] == fs;
  }

  /** An atom of the source that is no lambda stays as it is. */
  lemma PlainAtom(delta: Delta, n: nat, e: Exp, env: Env, tenv: Env)
    requires (e.Value? || e.Var?) && Eval(delta, n, e, env).Some? && EnvRel(env, tenv, {})
    ensures AtomVal(e, tenv).Some? && Rel(Eval(delta, n, e, env).value, AtomVal(e, tenv).value)
  {
    if e.Var? { EnvRelLookup(env, tenv, {}, e.name); }
  }

  /** One step, and what comes after. */
  lemma StepThen(delta: Delta, s: State, t: State, m: nat, u: State)
    requires Step(delta, s) == Some(t) && Steps(delta, m, t) == Some(u)
    ensures Steps(delta, m + 1, s) == Some(u)
  {
  }

  lemma NoStep(delta: Delta, s: State)
    ensures Steps(delta, 0, s) == Some(s)
  {
  }

  /** Calling a lambda of one argument. */
  lemma Continue(delta: Delta, x: nat, rest: Exp, tenv: Env, w: Val)
    ensures Step(delta, Ap(Clo(tenv, [x], rest), [w])) == Some(Ev(rest, Bind(x, w, tenv)))
  {
    assert BindAll(tenv, [x], [w]) == BindAll(Bind(x, w, tenv), [x][1..], [w][1..]) == Bind(x, w, tenv);
  }

  lemma OneAtom(delta: Delta, f: Exp, atom: Exp, tenv: Env)
    requires AtomVal(f, tenv).Some? && AtomVal(atom, tenv).Some?
    ensures Step(delta, Ev(Call(f, [atom]), tenv)) == Some(Ap(AtomVal(f, tenv).value, [AtomVal(atom, tenv).value]))
  {
    var one, w := [atom], AtomVal(atom, tenv).value;
    assert one[1..] == [] && AtomVals(one[1..], tenv) == Some([]);
    assert AtomVals(one, tenv) == Some([w] + []) && [w] + [] == [w];
  }

  /** A let of an atom. */
  lemma LetAtom(delta: Delta, x: nat, body: Exp, a: Exp, t: Env)
    requires AtomVal(a, t).Some?
    ensures Reaches(delta, 2, Call(Lambda([x], body), [a]), t, body, Bind(x, AtomVal(a, t).value, t), {x})
  {
    var w := AtomVal(a, t).value;
    OneAtom(delta, Lambda([x], body), a, t);
    Continue(delta, x, body, t, w);
    var s, u := Ap(Clo(t, [x], body), [w]), Ev(body, Bind(x, w, t));
    NoStep(delta, u);
    StepThen(delta, s, u, 0, u);
    StepThen(delta, Ev(Call(Lambda([x], body), [a]), t), s, 1, u);
  }

  /** A continuation that is a lambda goes on with its body. */
  lemma PassOn(delta: Delta, m: nat, e: Exp, t1: Env, x: nat, rest: Exp, t2: Env, w: Val, b: set<nat>)
    requires Passes(delta, m, e, t1, Lambda([x], rest), t2, w, b)
    ensures Reaches(delta, m + 1, e, t1, rest, Bind(x, w, t2), b + {x})
  {
    var s, u := Ap(Clo(t2, [x], rest), [w]), Ev(rest, Bind(x, w, t2));
    Continue(delta, x, rest, t2, w);
    NoStep(delta, u);
    StepThen(delta, s, u, 0, u);
    StepsJoin(delta, m, 1, Ev(e, t1), s);
  }

  lemma ScopedHead(es: seq<Exp>, scope: set<nat>, free: nat)
    requires ScopedAll(es, scope, free) && es != []
    ensures Scoped(es[0], scope, free) && ScopedAll(es[1..], scope, free)
    ensures BindersAll(es) == Binders(es[0]) + BindersAll(es[1..]) && Binders(es[0]) !! BindersAll(es[1..])
  {
  }

  lemma ScopedMore(e: Exp, scope: set<nat>, free: nat, free': nat)
    requires Scoped(e, scope, free) && free <= free'
    ensures Scoped(e, scope, free')
  {
  }

  lemma ScopedAllMore(es: seq<Exp>, scope: set<nat>, free: nat, free': nat)
    requires ScopedAll(es, scope, free) && free <= free'
    ensures ScopedAll(es, scope, free')
  {
  }

  lemma ScopedCall(f: Exp, es: seq<Exp>, scope: set<nat>, free: nat)
    requires Scoped(Call(f, es), scope, free)
    ensures Scoped(f, scope, free) && ScopedAll(es, scope, free) && Binders(f) !! BindersAll(es)
    ensures Binders(Call(f, es)) == Binders(f) + BindersAll(es)
  {
  }

  lemma ScopedLambda(fs: seq<nat>, b: Exp, scope: set<nat>, free: nat)
    requires Scoped(Lambda(fs, b), scope, free)
    ensures Scoped(b, scope + Elems(fs), free) && Binders(Lambda(fs, b)) == Elems(fs) + Binders(b)
    ensures fs == [] ==> scope + Elems(fs) == scope
  {
    assert Free(Lambda(fs, b)) == Free(b) - Elems(fs) && Elems(fs) <= Binders(Lambda(fs, b));
    assert fs == [] ==> Elems(fs) == {};
  }

  lemma ScopedIfeq(e: Exp, scope: set<nat>, free: nat)
    requires e.Ifeq? && Scoped(e, scope, free)
    ensures Scoped(e.a, scope, free) && Scoped(e.b, scope, free) && Scoped(e.yes, scope, free)
         && Scoped(e.no, scope, free)
    ensures Binders(e) == Binders(e.a) + Binders(e.b) + Binders(e.yes) + Binders(e.no)
    ensures (e.a.Value? || e.a.Var? || e.a.Call?) && (e.b.Value? || e.b.Var? || e.b.Call?)
  {
  }

  /** The environment a step further on still has what the source environment has. */
  lemma Onward(env: Env, t1: Env, t2: Env, but: set<nat>)
    requires EnvRel(env, t1, {}) && Agree(t1, t2, but) && Dom(env) !! but
    ensures EnvRel(env, t2, {})
  {
    EnvRelAgree(env, t1, t2, {}, {});
  }

  /** The value of e is passed to the continuation. */
  lemma {:induction false} CpsRuns(delta: Delta, n: nat, e: Exp, env: Env, cont: Exp, free: nat, tenv: Env)
    returns (m: nat, tenv2: Env, w: Val)
    requires Eval(delta, n, e, env).Some? && Scoped(e, Dom(env), free) && EnvRel(env, tenv, {})
    requires ContOk(cont, Binders(e), free, tenv)
    ensures Rel(Eval(delta, n, e, env).value, w)
    ensures Passes(delta, m, CpsExp(e, cont, free).0, tenv, cont, tenv2, w,
                   Binders(e) + Gens(free, CpsExp(e, cont, free).1))
    decreases n, Weight(e), 2
  {
    if e.Call? {
      m, tenv2, w := CallRuns(delta, n, e.rator, e.rands, env, cont, free, tenv);
    } else if e.Ifeq? {
      m, tenv2, w := IfeqRuns(delta, n, e, env, cont, free, tenv);
    } else {
      m, tenv2, w := AtomRuns(delta, n, e, env, cont, free, tenv);
    }
  }

  lemma AtomRuns(delta: Delta, n: nat, e: Exp, env: Env, cont: Exp, free: nat, tenv: Env) returns (m: nat,
          tenv2: Env, w: Val)
    requires Eval(delta, n, e, env).Some? && Scoped(e, Dom(env), free) && EnvRel(env, tenv, {})
    requires ContOk(cont, Binders(e), free, tenv) && Atom(e)
    ensures Rel(Eval(delta, n, e, env).value, w)
    ensures Passes(delta, m, CpsExp(e, cont, free).0, tenv, cont, tenv2, w,
                   Binders(e) + Gens(free, CpsExp(e, cont, free).1))
  {
    var atom := e;
    if e.Lambda? {
      atom := CpsLambda(e.formals, e.body, free).0;
      LambdaRel(e.formals, e.body, env, tenv, free);
    } else {
      PlainAtom(delta, n, e, env, tenv);
    }
    m, tenv2, w := 1, tenv, AtomVal(atom, tenv).value;
    OneAtom(delta, cont, atom, tenv);
    var u := Ap(AtomVal(cont, tenv).value, [w]);
    NoStep(delta, u);
    StepThen(delta, Ev(Call(cont, [atom]), tenv), u, 0, u);
  }

  /** e is computed and named x in what follows. */
  lemma {:induction false} Named(delta: Delta, n: nat, e: Exp, env: Env, x: nat, rest: Exp, free: nat, tenv: Env)
    returns (m: nat, t3: Env, w: Val)
    requires Eval(delta, n, e, env).Some? && Scoped(e, Dom(env), free) && EnvRel(env, tenv, {})
    requires x < free && x !in Dom(env) && x !in Binders(e)
    requires Free(rest) - {x} !! Binders(e) && AllBelow(Free(rest) - {x}, free)
    ensures Rel(Eval(delta, n, e, env).value, w) && Lookup(t3, x) == Some(w) && EnvRel(env, t3, {})
    ensures Reaches(delta, m, CpsExp(e, Lambda([x], rest), free).0, tenv, rest, t3,
                    Binders(e) + ({x} + Gens(free, CpsExp(e, Lambda([x], rest), free).1)))
    decreases n, Weight(e), 4
  {
    hide Rel, EnvRel, CpsExp, Eval, Steps;
    var k := Lambda([x], rest);
    assert Elems([x]) == {x};
    var m1, t2;
    m1, t2, w := CpsRuns(delta, n, e, env, k, free, tenv);
    var e', gens := CpsExp(e, k, free).0, Gens(free, CpsExp(e, k, free).1);
    m, t3 := m1 + 1, Bind(x, w, t2);
    PassOn(delta, m1, e', tenv, x, rest, t2, w, Binders(e) + gens);
    ReachMore(delta, m, e', tenv, rest, t3, Binders(e) + gens + {x}, Binders(e) + ({x} + gens));
    Onward(env, tenv, t3, Binders(e) + gens + {x});
  }

  function CallOf(all: seq<Exp>): Exp
    requires all != []
  {
    Call(all[0], all[1..])
  }

  /** What precedes the operands is not disturbed by their names. */
  ghost predicate Prefix(call: seq<Exp>, names: set<nat>, free: nat) {
    call != [] && FreeAll(call) !! names && AllBelow(FreeAll(call), free)
  }

  lemma PrefixMore(call: seq<Exp>, names: set<nat>, free: nat, e: Exp, names': set<nat>, free': nat)
    requires Prefix(call, names, free) && names' <= names && free <= free'
    requires Free(e) !! names' && AllBelow(Free(e), free')
    ensures Prefix([e] + call, names', free')
  {
    FreeAllJoin([e], call);
    FreePair(e, e);
    BelowJoin(FreeAll(call), Free(e), FreeAll([e] + call), if free < free' then free' else free, free');
  }

  lemma AtomValsCons(a: Exp, atoms: seq<Exp>, vs: seq<Val>, v: Val, tenv: Env)
    requires AtomVal(a, tenv).Some? && Rel(v, AtomVal(a, tenv).value)
    requires AtomVals(atoms, tenv).Some? && RelAll(vs, AtomVals(atoms, tenv).value)
    ensures AtomVals([a] + atoms, tenv).Some? && RelAll([v] + vs, AtomVals([a] + atoms, tenv).value)
  {
    assert ([a] + atoms)[1..] == atoms;
  }

  lemma ReversedCons(a: Exp, call: seq<Exp>, rest: seq<Exp>)
    ensures Reversed([a] + call) + rest == Reversed(call) + ([a] + rest)
  {
    assert ([a] + call)[1..] == call;
    assert Reversed([a] + call) == Reversed(call) + [a];
  }

  /** The operands are computed from left to right, and the call is made with them. */
  lemma {:induction false} ArgsRun(delta: Delta, n: nat, es: seq<Exp>, env: Env, call: seq<Exp>, free: nat, tenv: Env)
    returns (m: nat, tenv2: Env, atoms: seq<Exp>)
    requires EvalAll(delta, n, es, env).Some? && ScopedAll(es, Dom(env), free) && EnvRel(env, tenv, {})
    requires Prefix(call, BindersAll(es), free)
    ensures AtomVals(atoms, tenv2).Some? && RelAll(EvalAll(delta, n, es, env).value, AtomVals(atoms, tenv2).value)
    ensures EnvRel(env, tenv2, {})
    ensures Reaches(delta, m, CpsArgs(es, call, free).0, tenv, CallOf(Reversed(call) + atoms), tenv2,
                    BindersAll(es) + Gens(free, CpsArgs(es, call, free).1))
    decreases n, WeightAll(es), 3
  {
    if es == [] {
      m, tenv2, atoms := 0, tenv, [];
      assert Reversed(call) + atoms == Reversed(call);
      NoStep(delta, Ev(CallOf(Reversed(call) + atoms), tenv));
    } else if es[0].Call? || es[0].Ifeq? {
      m, tenv2, atoms := ArgsRunDeep(delta, n, es, env, call, free, tenv);
    } else {
      m, tenv2, atoms := ArgsRunAtom(delta, n, es, env, call, free, tenv);
    }
  }

  /** An atom as an operand, converted. */
  function AtomOperand(e: Exp, free: nat): (Exp, nat) {
    if e.Lambda? then CpsLambda(e.formals, e.body, free) else (e, free)
  }

  lemma OperandStep(es: seq<Exp>, call: seq<Exp>, free: nat)
    requires es != [] && call != [] && Atom(es[0])
    ensures CpsArgs(es, call, free) == CpsArgs(es[1..], [AtomOperand(es[0], free).0] + call, AtomOperand(es[0], free).1)
  {
  }

  lemma DeepStep(es: seq<Exp>, call: seq<Exp>, free: nat)
    requires es != [] && call != [] && !Atom(es[0])
    ensures var (rest, free1) := CpsArgs(es[1..], [Var(free)] + call, free + 1);
            CpsArgs(es, call, free) == CpsExp(es[0], Lambda([free], rest), free1)
  {
  }

  lemma OperandNames(e: Exp, scope: set<nat>, free: nat)
    requires Atom(e) && Scoped(e, scope, free)
    ensures var (a, free1) := AtomOperand(e, free);
            Free(a) <= scope && free <= free1 && AllBelow(Free(a), free1)
  {
    if e.Lambda? { CpsLambdaFree(e.formals, e.body, free); }
  }

  lemma OperandRel(delta: Delta, n: nat, e: Exp, env: Env, free: nat, tenv: Env)
    requires Atom(e) && Scoped(e, Dom(env), free) && EnvRel(env, tenv, {}) && Eval(delta, n, e, env).Some?
    ensures AtomVal(AtomOperand(e, free).0, tenv).Some?
    ensures Rel(Eval(delta, n, e, env).value, AtomVal(AtomOperand(e, free).0, tenv).value)
  {
    if e.Lambda? {
      LambdaRel(e.formals, e.body, env, tenv, free);
    } else {
      PlainAtom(delta, n, e, env, tenv);
    }
  }

  lemma {:induction false} ArgsRunAtom(delta: Delta, n: nat, es: seq<Exp>, env: Env, call: seq<Exp>, free: nat,
          tenv: Env)
    returns (m: nat, tenv2: Env, atoms: seq<Exp>)
    requires EvalAll(delta, n, es, env).Some? && ScopedAll(es, Dom(env), free) && EnvRel(env, tenv, {})
    requires Prefix(call, BindersAll(es), free) && es != [] && Atom(es[0])
    ensures AtomVals(atoms, tenv2).Some? && RelAll(EvalAll(delta, n, es, env).value, AtomVals(atoms, tenv2).value)
    ensures EnvRel(env, tenv2, {})
    ensures Reaches(delta, m, CpsArgs(es, call, free).0, tenv, CallOf(Reversed(call) + atoms), tenv2,
                    BindersAll(es) + Gens(free, CpsArgs(es, call, free).1))
    decreases n, WeightAll(es), 2
  {
    hide Rel, EnvRel, Steps, CpsArgs, AtomOperand, Eval;
    ScopedHead(es, Dom(env), free);
    var e, rest := es[0], [];
    var (a, free1) := AtomOperand(e, free);
    OperandStep(es, call, free);
    OperandNames(e, Dom(env), free);
    PrefixMore(call, BindersAll(es), free, a, BindersAll(es[1..]), free1);
    ScopedAllMore(es[1..], Dom(env), free, free1);
    m, tenv2, rest := ArgsRun(delta, n, es[1..], env, [a] + call, free1, tenv);
    OperandRel(delta, n, e, env, free, tenv2);
    atoms := [a] + rest;
    AtomValsCons(a, rest, EvalAll(delta, n, es[1..], env).value, Eval(delta, n, e, env).value, tenv2);
    ReversedCons(a, call, rest);
    ReachMore(delta, m, CpsArgs(es, call, free).0, tenv, CallOf(Reversed(call) + atoms), tenv2,
              BindersAll(es[1..]) + Gens(free1, CpsArgs(es, call, free).1),
              BindersAll(es) + Gens(free, CpsArgs(es, call, free).1));
  }

  lemma {:induction false} ArgsRunDeep(delta: Delta, n: nat, es: seq<Exp>, env: Env, call: seq<Exp>, free: nat,
          tenv: Env)
    returns (m: nat, tenv2: Env, atoms: seq<Exp>)
    requires EvalAll(delta, n, es, env).Some? && ScopedAll(es, Dom(env), free) && EnvRel(env, tenv, {})
    requires Prefix(call, BindersAll(es), free) && es != [] && (es[0].Call? || es[0].Ifeq?)
    ensures AtomVals(atoms, tenv2).Some? && RelAll(EvalAll(delta, n, es, env).value, AtomVals(atoms, tenv2).value)
    ensures EnvRel(env, tenv2, {})
    ensures Reaches(delta, m, CpsArgs(es, call, free).0, tenv, CallOf(Reversed(call) + atoms), tenv2,
                    BindersAll(es) + Gens(free, CpsArgs(es, call, free).1))
    decreases n, WeightAll(es), 2
  {
    hide Rel, EnvRel, Eval, Steps, CpsArgs, CpsExp, Free, Binders, Reversed, Gens;
    ScopedHead(es, Dom(env), free);
    var e, a := es[0], Var(free);
    var (rest, free1) := CpsArgs(es[1..], [a] + call, free + 1);
    DeepStep(es, call, free);
    RestOfArgs(es, Dom(env), call, free);
    ScopedMore(e, Dom(env), free, free1);
    CpsFree(e, Lambda([free], rest), free1);
    var m1, t3, w := Named(delta, n, e, env, free, rest, free1, tenv);
    var gens := {free} + Gens(free1, CpsExp(e, Lambda([free], rest), free1).1);
    var m2, more;
    m2, tenv2, more := ArgsRun(delta, n, es[1..], env, [a] + call, free + 1, t3);
    m, atoms := m1 + m2, [a] + more;
    ReversedCons(a, call, more);
    assert AtomVal(a, tenv2) == AtomVal(a, t3);
    AtomValsCons(a, more, EvalAll(delta, n, es[1..], env).value, Eval(delta, n, e, env).value, tenv2);
    ReachThen(delta, m1, CpsArgs(es, call, free).0, tenv, rest, t3, Binders(e) + gens, m2,
              CallOf(Reversed(call) + atoms), tenv2,
              BindersAll(es[1..]) + Gens(free + 1, free1), BindersAll(es) + Gens(free, CpsArgs(es, call, free).1));
  }

  /** The names in the rest of the operands, once the first has a name. */
  lemma RestOfArgs(es: seq<Exp>, scope: set<nat>, call: seq<Exp>, free: nat)
    requires ScopedAll(es, scope, free) && es != [] && Prefix(call, BindersAll(es), free)
    ensures ScopedAll(es[1..], scope, free + 1) && Prefix([Var(free)] + call, BindersAll(es[1..]), free + 1)
    ensures var (rest, free1) := CpsArgs(es[1..], [Var(free)] + call, free + 1);
            && free < free1 && free !in scope && free !in Binders(es[0])
            && Free(rest) - {free} !! Binders(es[0]) && AllBelow(Free(rest) - {free}, free1)
  {
    CpsArgsFree(es[1..], [Var(free)] + call, free + 1);
    FreeAllJoin([Var(free)], call);
    FreePair(Var(free), Var(free));
    PrefixMore(call, BindersAll(es), free, Var(free), BindersAll(es[1..]), free + 1);
    var (rest, free1) := CpsArgs(es[1..], [Var(free)] + call, free + 1);
    assert Free(rest) - {free} <= scope + FreeAll(call);
    BelowJoin(scope, FreeAll(call), Free(rest) - {free}, free, free1);
  }

  // ---- Calls ----

  function Applied(delta: Delta, n: nat, vf: Val, vs: seq<Val>): Option<Val> {
    match vf
    case Clo(cenv, fs, b) => if |fs| != |vs| then None else Eval(delta, n, b, BindAll(cenv, fs, vs))
    case Const(Op(op)) => Compute(delta, op, vs)
    case Const(Num(_)) => None
  }

  /** A converted function passes its result to the continuation it is given. */
  lemma {:induction false} ApplyRuns(delta: Delta, n: nat, vf: Val, vs: seq<Val>, wf: Val, ws: seq<Val>, k: Val)
    returns (m: nat, w: Val)
    requires Rel(vf, wf) && RelAll(vs, ws) && Applied(delta, n, vf, vs).Some?
    ensures Rel(Applied(delta, n, vf, vs).value, w)
    ensures Steps(delta, m, Ap(wf, [k] + ws)) == Some(Ap(k, [w]))
    decreases n, if vf.Clo? then Weight(vf.body) else 0, 4
  {
    hide CpsExp, EnvRel;
    match vf
    case Clo(cenv, fs, b) =>
      m, w := BodyRuns(delta, n, cenv, fs, b, vs, wf.env, wf.formals[0], ws, k);
      assert wf == Clo(wf.env, [wf.formals[0]] + fs, CpsExp(b, Var(wf.formals[0]), wf.formals[0] + 1).0);
    case Const(Op(op)) =>
      RelAllComputes(delta, op, vs, ws);
      w := Compute(delta, op, vs).value;
      assert ([k] + ws)[1..] == ws;
      m := 1;
      NoStep(delta, Ap(k, [w]));
  }

  lemma {:induction false} BodyRuns(delta: Delta, n: nat, cenv: Env, fs: seq<nat>, b: Exp, vs: seq<Val>, tenv: Env,
          kn: nat, ws: seq<Val>, k: Val)
    returns (m: nat, w: Val)
    requires |fs| == |vs| && RelAll(vs, ws) && EnvRel(cenv, tenv, {}) && Scoped(b, Dom(cenv) + Elems(fs), kn)
    requires Eval(delta, n, b, BindAll(cenv, fs, vs)).Some?
    ensures Rel(Eval(delta, n, b, BindAll(cenv, fs, vs)).value, w)
    ensures Steps(delta, m, Ap(Clo(tenv, [kn] + fs, CpsExp(b, Var(kn), kn + 1).0), [k] + ws)) == Some(Ap(k, [w]))
    decreases n, Weight(b), 3
  {
    hide CpsExp, EnvRel, Rel, Eval;
    var t, env, cont := BindAll(tenv, [kn] + fs, [k] + ws), BindAll(cenv, fs, vs), Var(kn);
    assert kn !in Dom(cenv) + Elems(fs);
    BodyEnv(cenv, tenv, fs, vs, ws, kn, k);
    BindAllDom(cenv, fs, vs);
    ScopedMore(b, Dom(env), kn, kn + 1);
    var m1, tenv2;
    m1, tenv2, w := CpsRuns(delta, n, b, env, cont, kn + 1, t);
    assert Lookup(tenv2, kn) == Lookup(t, kn);
    var body := CpsExp(b, cont, kn + 1).0;
    StepThen(delta, Ap(Clo(tenv, [kn] + fs, body), [k] + ws), Ev(body, t), m1, Ap(k, [w]));
    m := m1 + 1;
  }

  /** The environment in which the body of a converted function runs. */
  lemma BodyEnv(cenv: Env, tenv: Env, fs: seq<nat>, vs: seq<Val>, ws: seq<Val>, kn: nat, k: Val)
    requires EnvRel(cenv, tenv, {}) && RelAll(vs, ws) && |fs| == |vs| && kn !in fs && kn !in Dom(cenv)
    ensures var t := BindAll(tenv, [kn] + fs, [k] + ws);
            EnvRel(BindAll(cenv, fs, vs), t, {}) && Lookup(t, kn) == Some(k)
  {
    var t1 := Bind(kn, k, tenv);
    assert ([kn] + fs)[1..] == fs && ([k] + ws)[1..] == ws;
    EnvRelAgree(cenv, tenv, t1, {}, {});
    EnvRelBindAll(cenv, t1, fs, vs, ws);
    BindAllLookup(t1, fs, ws, kn);
  }

  lemma CallStep(delta: Delta, f: Exp, cont: Exp, atoms: seq<Exp>, tenv: Env)
    requires AtomVal(f, tenv).Some? && AtomVal(cont, tenv).Some? && AtomVals(atoms, tenv).Some?
    ensures Step(delta, Ev(Call(f, [cont] + atoms), tenv))
         == Some(Ap(AtomVal(f, tenv).value, [AtomVal(cont, tenv).value] + AtomVals(atoms, tenv).value))
  {
    assert ([cont] + atoms)[1..] == atoms;
  }

  /** Operator, continuation and operands are there: the result goes to the continuation. */
  lemma {:induction false} FinishCall(delta: Delta, n: nat, f: Exp, cont: Exp, atoms: seq<Exp>, tenv: Env, vf: Val,
          vs: seq<Val>)
    returns (m: nat, w: Val)
    requires AtomVal(f, tenv).Some? && AtomVal(cont, tenv).Some? && AtomVals(atoms, tenv).Some?
    requires Rel(vf, AtomVal(f, tenv).value) && RelAll(vs, AtomVals(atoms, tenv).value)
    requires Applied(delta, n, vf, vs).Some?
    ensures Rel(Applied(delta, n, vf, vs).value, w)
    ensures Passes(delta, m, Call(f, [cont] + atoms), tenv, cont, tenv, w, {})
    decreases n, if vf.Clo? then Weight(vf.body) else 0, 5
  {
    hide Rel, Steps, Applied;
    var k, wf, ws := AtomVal(cont, tenv).value, AtomVal(f, tenv).value, AtomVals(atoms, tenv).value;
    CallStep(delta, f, cont, atoms, tenv);
    m, w := ApplyRuns(delta, n, vf, vs, wf, ws, k);
    StepThen(delta, Ev(Call(f, [cont] + atoms), tenv), Ap(wf, [k] + ws), m, Ap(k, [w]));
    m := m + 1;
  }

  lemma ReversedTwo(a: Exp, b: Exp, atoms: seq<Exp>)
    ensures CallOf(Reversed([a, b]) + atoms) == Call(b, [a] + atoms)
    ensures CallOf(Reversed([a]) + atoms) == Call(a, atoms)
  {
    assert [a, b][1..] == [b] && [b][1..] == [] && [a][1..] == [];
    assert Reversed([b]) == [b];
    assert Reversed([a, b]) + atoms == [b] + ([a] + atoms);
    assert Reversed([a]) + atoms == [a] + atoms;
  }

  /** The operator, an atom, is known: the operands are computed and the call is made. */
  lemma {:induction false} OperatorKnown(delta: Delta, n: nat, f: Exp, es: seq<Exp>, env: Env, cont: Exp, free: nat,
          tenv: Env, vf: Val)
    returns (m: nat, tenv2: Env, w: Val)
    requires EvalAll(delta, n, es, env).Some? && ScopedAll(es, Dom(env), free) && EnvRel(env, tenv, {})
    requires ContOk(cont, BindersAll(es), free, tenv)
    requires (f.Var? || f.Value?) && Free(f) !! BindersAll(es) && AllBelow(Free(f), free)
    requires AtomVal(f, tenv).Some? && Rel(vf, AtomVal(f, tenv).value)
    requires Applied(delta, n, vf, EvalAll(delta, n, es, env).value).Some?
    ensures Rel(Applied(delta, n, vf, EvalAll(delta, n, es, env).value).value, w)
    ensures Passes(delta, m, CpsArgs(es, [cont, f], free).0, tenv, cont, tenv2, w,
                   BindersAll(es) + Gens(free, CpsArgs(es, [cont, f], free).1))
    decreases n, WeightAll(es) + (if vf.Clo? then Weight(vf.body) else 0), 6
  {
    hide Rel, EnvRel, Steps, CpsArgs, Applied;
    FreePair(cont, f);
    BelowJoin(Free(cont), Free(f), FreeAll([cont, f]), free, free);
    var m1, atoms, m2;
    m1, tenv2, atoms := ArgsRun(delta, n, es, env, [cont, f], free, tenv);
    var e', names, gens := CpsArgs(es, [cont, f], free).0, BindersAll(es), Gens(free, CpsArgs(es, [cont, f], free).1);
    ReversedTwo(cont, f, atoms);
    ContAfter(cont, names, free, tenv, tenv2, names, gens, names, free);
    AtomStays(f, free, tenv, tenv2, names, gens);
    m2, w := FinishCall(delta, n, f, cont, atoms, tenv2, vf, EvalAll(delta, n, es, env).value);
    m := m1 + m2;
    ReachPass(delta, m1, e', tenv, Call(f, [cont] + atoms), tenv2, names + gens, m2, cont, tenv2, w, {}, names + gens);
  }

  lemma {:induction false} CallRuns(delta: Delta, n: nat, f: Exp, es: seq<Exp>, env: Env, cont: Exp, free: nat,
          tenv: Env)
    returns (m: nat, tenv2: Env, w: Val)
    requires Eval(delta, n, Call(f, es), env).Some? && Scoped(Call(f, es), Dom(env), free) && EnvRel(env, tenv, {})
    requires ContOk(cont, Binders(Call(f, es)), free, tenv)
    ensures Rel(Eval(delta, n, Call(f, es), env).value, w)
    ensures Passes(delta, m, CpsCall(f, es, cont, free).0, tenv, cont, tenv2, w,
                   Binders(Call(f, es)) + Gens(free, CpsCall(f, es, cont, free).1))
    decreases n, Weight(Call(f, es)), 1
  {
    hide Rel, EnvRel, Steps, CpsArgs;
    if f.Lambda? {
      m, tenv2, w := CallLambdaRuns(delta, n, f, es, env, cont, free, tenv);
    } else if f.Value? || f.Var? {
      ScopedCall(f, es, Dom(env), free);
      var vf := Eval(delta, n - 1, f, env).value;
      assert Applied(delta, n - 1, vf, EvalAll(delta, n - 1, es, env).value) == Eval(delta, n, Call(f, es), env);
      PlainAtom(delta, n - 1, f, env, tenv);
      ContNarrow(cont, Binders(Call(f, es)), free, tenv, BindersAll(es), free);
      m, tenv2, w := OperatorKnown(delta, n - 1, f, es, env, cont, free, tenv, vf);
      var e', gens := CpsCall(f, es, cont, free).0, Gens(free, CpsCall(f, es, cont, free).1);
      PassMore(delta, m, e', tenv, cont, tenv2, w, BindersAll(es) + gens, Binders(Call(f, es)) + gens);
    } else {
      m, tenv2, w := CallDeepRuns(delta, n, f, es, env, cont, free, tenv);
    }
  }

  /** The operator is a call or an ifeq: it is computed first, and named. */
  lemma {:induction false} CallDeepRuns(delta: Delta, n: nat, f: Exp, es: seq<Exp>, env: Env, cont: Exp, free: nat,
          tenv: Env)
    returns (m: nat, tenv2: Env, w: Val)
    requires Eval(delta, n, Call(f, es), env).Some? && Scoped(Call(f, es), Dom(env), free) && EnvRel(env, tenv, {})
    requires ContOk(cont, Binders(Call(f, es)), free, tenv) && (f.Call? || f.Ifeq?)
    ensures Rel(Eval(delta, n, Call(f, es), env).value, w)
    ensures Passes(delta, m, CpsCall(f, es, cont, free).0, tenv, cont, tenv2, w,
                   Binders(Call(f, es)) + Gens(free, CpsCall(f, es, cont, free).1))
    decreases n, Weight(Call(f, es)), 0
  {
    hide Rel, EnvRel, Steps, CpsExp, CpsCall, CpsArgs;
    ScopedCall(f, es, Dom(env), free);
    var m1, t3, wf := NamedOperator(delta, n, f, es, env, cont, free, tenv);
    var gens, call := Gens(free, CpsCall(f, es, cont, free).1), CpsArgs(es, [cont, Var(free)], free + 1);
    ContAfter(cont, Binders(Call(f, es)), free, tenv, t3, Binders(f), gens, BindersAll(es), free + 1);
    ScopedAllMore(es, Dom(env), free, free + 1);
    var vf, m2 := Eval(delta, n - 1, f, env).value, 0;
    assert Applied(delta, n - 1, vf, EvalAll(delta, n - 1, es, env).value) == Eval(delta, n, Call(f, es), env);
    m2, tenv2, w := OperatorKnown(delta, n - 1, Var(free), es, env, cont, free + 1, t3, vf);
    m := m1 + m2;
    ReachPass(delta, m1, CpsCall(f, es, cont, free).0, tenv, call.0, t3, Binders(f) + gens, m2, cont, tenv2, w,
              BindersAll(es) + Gens(free + 1, call.1), Binders(Call(f, es)) + gens);
  }

  lemma {:induction false} NamedOperator(delta: Delta, n: nat, f: Exp, es: seq<Exp>, env: Env, cont: Exp, free: nat,
          tenv: Env)
    returns (m: nat, t3: Env, wf: Val)
    requires n > 0 && Eval(delta, n - 1, f, env).Some? && Scoped(Call(f, es), Dom(env), free) && EnvRel(env, tenv, {})
    requires ContOk(cont, Binders(Call(f, es)), free, tenv) && (f.Call? || f.Ifeq?)
    ensures Rel(Eval(delta, n - 1, f, env).value, wf) && Lookup(t3, free) == Some(wf) && EnvRel(env, t3, {})
    ensures free < CpsArgs(es, [cont, Var(free)], free + 1).1 <= CpsCall(f, es, cont, free).1
    ensures Reaches(delta, m, CpsCall(f, es, cont, free).0, tenv, CpsArgs(es, [cont, Var(free)], free + 1).0, t3,
                    Binders(f) + Gens(free, CpsCall(f, es, cont, free).1))
    decreases n, 0, 1
  {
    hide Rel, EnvRel, Steps, CpsExp, CpsArgs, Eval;
    ScopedCall(f, es, Dom(env), free);
    var (call, free1) := CpsArgs(es, [cont, Var(free)], free + 1);
    CallBody(f, es, Dom(env), cont, free, tenv);
    if f.Call? {
      ScopedMore(f, Dom(env), free, free1);
      m, t3, wf := Named(delta, n - 1, f, env, free, call, free1, tenv);
      CpsFree(f, Lambda([free], call), free1);
      ReachMore(delta, m, CpsCall(f, es, cont, free).0, tenv, call, t3,
                Binders(f) + ({free} + Gens(free1, CpsExp(f, Lambda([free], call), free1).1)),
                Binders(f) + Gens(free, CpsCall(f, es, cont, free).1));
    } else {
      IfeqOperator(f, es, cont, free);
      m, t3, wf := NamedTwice(delta, n, f, env, call, free, free1, tenv);
    }
  }

  /** The names in the rest of the call, once its operator has one. */
  lemma CallBody(f: Exp, es: seq<Exp>, scope: set<nat>, cont: Exp, free: nat, tenv: Env)
    requires Scoped(Call(f, es), scope, free) && ContOk(cont, Binders(Call(f, es)), free, tenv)
    ensures var (call, free1) := CpsArgs(es, [cont, Var(free)], free + 1);
            && free < free1 && Free(call) - {free} !! Binders(f) && AllBelow(Free(call) - {free}, free1)
            && free !in scope && free !in Binders(f)
  {
    hide CpsArgs, Binders, BindersAll;
    CpsArgsFree(es, [cont, Var(free)], free + 1);
    FreePair(cont, Var(free));
    ScopedCall(f, es, scope, free);
    NewName(f, scope, free, free);
    var (call, free1) := CpsArgs(es, [cont, Var(free)], free + 1);
    BodyNames(Free(call), FreeAll(es), Free(cont), free, scope);
    BelowJoin(scope, Free(cont), Free(call) - {free}, free, free1);
  }

  lemma BodyNames(call: set<nat>, es: set<nat>, cont: set<nat>, x: nat, scope: set<nat>)
    requires call <= es + (cont + {x}) && es <= scope
    ensures call - {x} <= scope + cont
  {
  }

  /** The operator is named twice: as an operand and then as an operator. */
  lemma {:induction false} NamedTwice(delta: Delta, n: nat, f: Exp, env: Env, call: Exp, free: nat, free1: nat,
          tenv: Env)
    returns (m: nat, t3: Env, wf: Val)
    requires n > 0 && Eval(delta, n - 1, f, env).Some? && Scoped(f, Dom(env), free) && EnvRel(env, tenv, {})
    requires free < free1 && Free(call) - {free} !! Binders(f) && AllBelow(Free(call) - {free}, free1)
    ensures Rel(Eval(delta, n - 1, f, env).value, wf) && Lookup(t3, free) == Some(wf) && EnvRel(env, t3, {})
    ensures var out := CpsExp(f, Lambda([free1], Call(Lambda([free], call), [Var(free1)])), free1 + 1);
            free1 <= out.1 && Reaches(delta, m, out.0, tenv, call, t3, Binders(f) + Gens(free, out.1))
    decreases n, 0, 0
  {
    hide Rel, EnvRel, CpsExp, Eval, Steps, Free, Binders, Lookup;
    var again := Call(Lambda([free], call), [Var(free1)]);
    var out := CpsExp(f, Lambda([free1], again), free1 + 1);
    ScopedMore(f, Dom(env), free, free1 + 1);
    CpsFree(f, Lambda([free1], again), free1 + 1);
    AgainFree(call, free, free1);
    NewName(f, Dom(env), free, free1);
    var m1, t;
    m1, t, wf := Named(delta, n - 1, f, env, free1, again, free1 + 1, tenv);
    LetAtom(delta, free, call, Var(free1), t);
    t3 := Bind(free, wf, t);
    BindLookup(free, wf, t);
    Onward(env, t, t3, {free});
    m := m1 + 2;
    ReachThen(delta, m1, out.0, tenv, again, t, Binders(f) + ({free1} + Gens(free1 + 1, out.1)), 2, call, t3, {free},
              Binders(f) + Gens(free, out.1));
  }

  lemma AgainFree(call: Exp, free: nat, free1: nat)
    ensures var again := Call(Lambda([free], call), [Var(free1)]);
            && Free(again) == (Free(call) - {free}) + {free1}
            && Free(Lambda([free1], again)) == (Free(call) - {free}) - {free1}
  {
    FreePair(Var(free1), Var(free1));
    assert Elems([free]) == {free} && Elems([free1]) == {free1};
  }

  lemma BindLookup(x: nat, v: Val, t: Env)
    ensures Lookup(Bind(x, v, t), x) == Some(v)
  {
  }

  lemma NewName(e: Exp, scope: set<nat>, free: nat, x: nat)
    requires Scoped(e, scope, free) && x >= free
    ensures x !in scope && x !in Binders(e) && free !in scope
  {
  }

  /** What the conversion of an ifeq in operator position comes to. */
  lemma IfeqOperator(f: Exp, es: seq<Exp>, cont: Exp, free: nat)
    requires f.Ifeq?
    ensures var (call, free1) := CpsArgs(es, [cont, Var(free)], free + 1);
            var next := Lambda([free1], Call(Lambda([free], call), [Var(free1)]));
            CpsCall(f, es, cont, free) == CpsExp(f, next, free1 + 1)
  {
    var (call, free1) := CpsArgs(es, [cont, Var(free)], free + 1);
    var named := Lambda([free], Call(Var(free), es));
    assert CpsExp(Call(Var(free), es), cont, free + 1) == CpsCall(Var(free), es, cont, free + 1) == (call, free1);
    assert CpsCall(f, es, cont, free) == CpsExp(Call(named, [f]), cont, free + 1)
        == CpsCall(named, [f], cont, free + 1);
    assert CpsCall(named, [f], cont, free + 1) == CpsArgs([f], [Lambda([free], call)], free1);
    var both := [Var(free1)] + [Lambda([free], call)];
    assert [f][1..] == [];
    ReversedTwo(Var(free1), Lambda([free], call), []);
    assert both == [Var(free1), Lambda([free], call)] && Reversed(both) + [] == Reversed(both);
    assert [Var(free1)] + [] == [Var(free1)];
    assert CpsArgs([], both, free1 + 1) == (Call(Lambda([free], call), [Var(free1)]), free1 + 1);
  }

  lemma LetAgree(t2: Env, fs: seq<nat>, ws: seq<Val>, t3: Env)
    requires |fs| == |ws| && t3 == BindAll(t2, fs, ws)
    ensures Agree(t2, t3, Elems(fs))
  {
    forall x | x !in Elems(fs) ensures Lookup(t3, x) == Lookup(t2, x) {
      BindAllLookup(t2, fs, ws, x);
    }
  }

  /** A let. */
  lemma LetStep(delta: Delta, fs: seq<nat>, body: Exp, atoms: seq<Exp>, t: Env)
    requires AtomVals(atoms, t).Some? && |fs| == |AtomVals(atoms, t).value|
    ensures Reaches(delta, 2, Call(Lambda(fs, body), atoms), t, body, BindAll(t, fs, AtomVals(atoms, t).value),
                    Elems(fs))
  {
    var ws := AtomVals(atoms, t).value;
    var s, u := Ap(Clo(t, fs, body), ws), Ev(body, BindAll(t, fs, ws));
    LetAgree(t, fs, ws, BindAll(t, fs, ws));
    NoStep(delta, u);
    StepThen(delta, s, u, 0, u);
    StepThen(delta, Ev(Call(Lambda(fs, body), atoms), t), s, 1, u);
  }

  lemma LetBody(fs: seq<nat>, b: Exp, es: seq<Exp>, scope: set<nat>, cont: Exp, free: nat, tenv: Env)
    requires Scoped(Call(Lambda(fs, b), es), scope, free) && ContOk(cont, Binders(Call(Lambda(fs, b), es)), free, tenv)
    ensures var (body, free1) := CpsExp(b, cont, free);
            && free <= free1 <= CpsArgs(es, [Lambda(fs, body)], free1).1
            && ScopedAll(es, scope, free1) && Prefix([Lambda(fs, body)], BindersAll(es), free1)
  {
    CpsFree(b, cont, free);
    ScopedCall(Lambda(fs, b), es, scope, free);
    var (body, free1) := CpsExp(b, cont, free);
    var l := Lambda(fs, body);
    FreePair(l, b);
    CpsArgsFree(es, [l], free1);
    assert Free(l) <= Free(Lambda(fs, b)) + Free(cont);
    BelowJoin(scope, Free(cont), Free(l), free, free1);
    ScopedAllMore(es, scope, free, free1);
  }

  /** A lambda in operator position is a let: its body is converted with the same continuation. */
  lemma {:induction false} CallLambdaRuns(delta: Delta, n: nat, f: Exp, es: seq<Exp>, env: Env, cont: Exp,
          free: nat, tenv: Env)
    returns (m: nat, tenv2: Env, w: Val)
    requires Eval(delta, n, Call(f, es), env).Some? && Scoped(Call(f, es), Dom(env), free) && EnvRel(env, tenv, {})
    requires ContOk(cont, Binders(Call(f, es)), free, tenv) && f.Lambda?
    ensures Rel(Eval(delta, n, Call(f, es), env).value, w)
    ensures Passes(delta, m, CpsCall(f, es, cont, free).0, tenv, cont, tenv2, w,
                   Binders(Call(f, es)) + Gens(free, CpsCall(f, es, cont, free).1))
    decreases n, Weight(Call(f, es)), 0
  {
    hide Rel, EnvRel, Steps, CpsExp, CpsArgs, Gens, Lookup, Free;
    ScopedCall(f, es, Dom(env), free);
    var Lambda(fs, b) := f;
    ScopedLambda(fs, b, Dom(env), free);
    var vs := EvalAll(delta, n - 1, es, env).value;
    BindAllDom(env, fs, vs);
    assert Eval(delta, n, Call(f, es), env) == Eval(delta, n - 1, b, BindAll(env, fs, vs));
    var e', gens := CpsCall(f, es, cont, free).0, Gens(free, CpsCall(f, es, cont, free).1);
    if fs == [] {
      ContNarrow(cont, Binders(Call(f, es)), free, tenv, Binders(b), free);
      m, tenv2, w := CpsRuns(delta, n - 1, b, env, cont, free, tenv);
      PassMore(delta, m, e', tenv, cont, tenv2, w, Binders(b) + gens, Binders(Call(f, es)) + gens);
    } else {
      LetBody(fs, b, es, Dom(env), cont, free, tenv);
      var m1, t3 := LetRuns(delta, n, fs, b, es, env, cont, free, tenv, vs);
      var m2;
      m2, tenv2, w := CpsRuns(delta, n - 1, b, BindAll(env, fs, vs), cont, free, t3);
      m := m1 + m2;
      ReachPass(delta, m1, e', tenv, CpsExp(b, cont, free).0, t3, BindersAll(es) + Elems(fs) + gens, m2, cont, tenv2, w,
                Binders(b) + Gens(free, CpsExp(b, cont, free).1), Binders(Call(f, es)) + gens);
    }
  }

  /** The operands of a let are computed and bound. */
  lemma {:induction false} LetRuns(delta: Delta, n: nat, fs: seq<nat>, b: Exp, es: seq<Exp>, env: Env, cont: Exp,
          free: nat, tenv: Env, vs: seq<Val>)
    returns (m: nat, t3: Env)
    requires n > 0 && EvalAll(delta, n - 1, es, env) == Some(vs) && |fs| == |vs|
    requires Scoped(Call(Lambda(fs, b), es), Dom(env), free) && EnvRel(env, tenv, {})
    requires ContOk(cont, Binders(Call(Lambda(fs, b), es)), free, tenv)
    ensures EnvRel(BindAll(env, fs, vs), t3, {}) && ContOk(cont, Binders(b), free, t3)
    ensures var (body, free1) := CpsExp(b, cont, free);
            var (e', free2) := CpsArgs(es, [Lambda(fs, body)], free1);
            Reaches(delta, m, e', tenv, body, t3, BindersAll(es) + Elems(fs) + Gens(free, free2))
    decreases n, 0, 0
  {
    hide Rel, EnvRel, Steps, CpsExp, CpsArgs, Eval;
    var names := Binders(Call(Lambda(fs, b), es));
    var (body, free1) := CpsExp(b, cont, free);
    var lexp := Lambda(fs, body);
    LetBody(fs, b, es, Dom(env), cont, free, tenv);
    ScopedCall(Lambda(fs, b), es, Dom(env), free);
    ScopedLambda(fs, b, Dom(env), free);
    var m1, t2, atoms := ArgsRun(delta, n - 1, es, env, [lexp], free1, tenv);
    ReversedTwo(lexp, lexp, atoms);
    var ws := AtomVals(atoms, t2).value;
    var (e', free2) := CpsArgs(es, [lexp], free1);
    LetStep(delta, fs, body, atoms, t2);
    t3, m := BindAll(t2, fs, ws), m1 + 2;
    EnvRelBindAll(env, t2, fs, vs, ws);
    var b1 := BindersAll(es) + Gens(free1, free2);
    ContAfter(cont, names, free, tenv, t2, BindersAll(es), Gens(free1, free2), names, free);
    assert Elems(fs) + {} == Elems(fs);
    ContAfter(cont, names, free, t2, t3, Elems(fs), {}, Binders(b), free);
    ReachThen(delta, m1, e', tenv, Call(lexp, atoms), t2, b1, 2, body, t3, Elems(fs),
              BindersAll(es) + Elems(fs) + Gens(free, free2));
  }

  // ---- ifeq ----

  /** Both operands are there, and the continuation is a variable. */
  lemma {:induction false} BranchRuns(delta: Delta, n: nat, a: Exp, b: Exp, y: Exp, no: Exp, env: Env, cont: Exp,
          free: nat, tenv: Env, same: bool)
    returns (m: nat, tenv2: Env, w: Val)
    requires (a.Value? || a.Var?) && (b.Value? || b.Var?) && cont.Var?
    requires AtomVal(a, tenv).Some? && AtomVal(b, tenv).Some?
          && Same(AtomVal(a, tenv).value, AtomVal(b, tenv).value) == Some(same)
    requires Scoped(y, Dom(env), free) && Scoped(no, Dom(env), free) && EnvRel(env, tenv, {})
    requires Eval(delta, n, if same then y else no, env).Some?
    requires ContOk(cont, Binders(y) + Binders(no), free, tenv)
    ensures Rel(Eval(delta, n, if same then y else no, env).value, w)
    ensures Passes(delta, m, CpsIfeq(a, b, y, no, cont, free).0, tenv, cont, tenv2, w,
                   Binders(y) + Binders(no) + Gens(free, CpsIfeq(a, b, y, no, cont, free).1))
    decreases n, Weight(if same then y else no), 3
  {
    hide Rel, EnvRel, Steps, CpsExp, Eval;
    var free1 := CpsExp(y, cont, free).1;
    CpsFree(y, cont, free);
    CpsFree(no, cont, free1);
    ScopedMore(no, Dom(env), free, free1);
    var e, f := if same then y else no, if same then free else free1;
    ContNarrow(cont, Binders(y) + Binders(no), free, tenv, Binders(e), f);
    m, tenv2, w := CpsRuns(delta, n, e, env, cont, f, tenv);
    var e', gens := CpsIfeq(a, b, y, no, cont, free).0, Gens(free, CpsIfeq(a, b, y, no, cont, free).1);
    StepThen(delta, Ev(e', tenv), Ev(CpsExp(e, cont, f).0, tenv), m, Ap(AtomVal(cont, tenv2).value, [w]));
    m := m + 1;
    PassMore(delta, m, e', tenv, cont, tenv2, w, Binders(e) + Gens(f, CpsExp(e, cont, f).1),
             Binders(y) + Binders(no) + gens);
  }

  /** The first operand is there; the second may have to be called for. */
  lemma {:induction false} SecondRuns(delta: Delta, n: nat, a: Exp, b: Exp, y: Exp, no: Exp, env: Env, cont: Exp,
          free: nat, tenv: Env, va: Val, same: bool)
    returns (m: nat, tenv2: Env, w: Val)
    requires (a.Value? || a.Var?) && cont.Var? && AtomVal(a, tenv).Some? && Rel(va, AtomVal(a, tenv).value)
    requires Free(a) !! Binders(b) && AllBelow(Free(a), free)
    requires Scoped(b, Dom(env), free) && (b.Value? || b.Var? || b.Call?) && Eval(delta, n, b, env).Some?
    requires Same(va, Eval(delta, n, b, env).value) == Some(same)
    requires Scoped(y, Dom(env), free) && Scoped(no, Dom(env), free) && EnvRel(env, tenv, {})
    requires Eval(delta, n, if same then y else no, env).Some?
    requires ContOk(cont, Binders(b) + Binders(y) + Binders(no), free, tenv)
    ensures Rel(Eval(delta, n, if same then y else no, env).value, w)
    ensures Passes(delta, m, CpsIfeq(a, b, y, no, cont, free).0, tenv, cont, tenv2, w,
                   Binders(b) + Binders(y) + Binders(no) + Gens(free, CpsIfeq(a, b, y, no, cont, free).1))
    decreases n, Weight(b) + Weight(y) + Weight(no), 4
  {
    hide Rel, EnvRel, Steps, CpsExp, CpsIfeq, Eval, Binders, Free, Lookup;
    var vb, names, all := Eval(delta, n, b, env).value, Binders(y) + Binders(no), Binders(b) + Binders(y) + Binders(no);
    var (e', free2) := CpsIfeq(a, b, y, no, cont, free);
    if b.Call? {
      var m1, t3, wb := NamedSecond(delta, n, a, b, y, no, env, cont, free, tenv, va);
      var (rest, free1) := CpsIfeq(a, Var(free), y, no, cont, free + 1);
      SameRel(va, AtomVal(a, t3).value, vb, wb);
      ScopedMore(y, Dom(env), free, free + 1);
      ScopedMore(no, Dom(env), free, free + 1);
      var m2;
      m2, tenv2, w := BranchRuns(delta, n, a, Var(free), y, no, env, cont, free + 1, t3, same);
      m := m1 + m2;
      ReachPass(delta, m1, e', tenv, rest, t3, Binders(b) + Gens(free, free2), m2, cont, tenv2, w,
                names + Gens(free + 1, free1), all + Gens(free, free2));
    } else {
      PlainAtom(delta, n, b, env, tenv);
      SameRel(va, AtomVal(a, tenv).value, vb, AtomVal(b, tenv).value);
      ContNarrow(cont, all, free, tenv, names, free);
      m, tenv2, w := BranchRuns(delta, n, a, b, y, no, env, cont, free, tenv, same);
      PassMore(delta, m, e', tenv, cont, tenv2, w, names + Gens(free, free2), all + Gens(free, free2));
    }
  }

  lemma {:induction false} NamedSecond(delta: Delta, n: nat, a: Exp, b: Exp, y: Exp, no: Exp, env: Env, cont: Exp,
          free: nat, tenv: Env, va: Val)
    returns (m: nat, t3: Env, wb: Val)
    requires (a.Value? || a.Var?) && cont.Var? && AtomVal(a, tenv).Some? && Rel(va, AtomVal(a, tenv).value)
    requires Free(a) !! Binders(b) && AllBelow(Free(a), free)
    requires Scoped(b, Dom(env), free) && b.Call? && Eval(delta, n, b, env).Some?
    requires Scoped(y, Dom(env), free) && Scoped(no, Dom(env), free) && EnvRel(env, tenv, {})
    requires ContOk(cont, Binders(b) + Binders(y) + Binders(no), free, tenv)
    ensures Rel(Eval(delta, n, b, env).value, wb) && Lookup(t3, free) == Some(wb) && EnvRel(env, t3, {})
    ensures AtomVal(a, t3) == AtomVal(a, tenv) && ContOk(cont, Binders(y) + Binders(no), free + 1, t3)
    ensures var (e', free2) := CpsIfeq(a, b, y, no, cont, free);
            var (rest, free1) := CpsIfeq(a, Var(free), y, no, cont, free + 1);
            free < free1 <= free2 && Reaches(delta, m, e', tenv, rest, t3, Binders(b) + Gens(free, free2))
    decreases n, Weight(b), 5
  {
    hide Rel, EnvRel, Steps, CpsExp, Eval;
    var names, all := Binders(y) + Binders(no), Binders(b) + Binders(y) + Binders(no);
    var (e', free2) := CpsIfeq(a, b, y, no, cont, free);
    var (rest, free1) := CpsIfeq(a, Var(free), y, no, cont, free + 1);
    ContNarrow(cont, all, free, tenv, Binders(b), free);
    IfeqRest(a, Var(free), y, no, cont, free, b, Dom(env), tenv);
    ScopedMore(b, Dom(env), free, free1);
    CpsFree(b, Lambda([free], rest), free1);
    NewName(b, Dom(env), free, free);
    m, t3, wb := Named(delta, n, b, env, free, rest, free1, tenv);
    var gens := Gens(free, free2);
    ReachMore(delta, m, e', tenv, rest, t3, Binders(b) + ({free} + Gens(free1, free2)), Binders(b) + gens);
    ContAfter(cont, all, free, tenv, t3, Binders(b), gens, names, free + 1);
    AtomStays(a, free, tenv, t3, Binders(b), gens);
  }

  /** The names in the rest of an ifeq, once one of its operands, e, has a name. */
  lemma IfeqRest(a: Exp, b: Exp, y: Exp, no: Exp, cont: Exp, free: nat, e: Exp, scope: set<nat>, tenv: Env)
    requires Free(a) + Free(b) - {free} !! Binders(e) && AllBelow(Free(a) + Free(b) - {free}, free)
    requires Scoped(e, scope, free) && Scoped(y, scope, free) && Scoped(no, scope, free)
          && ContOk(cont, Binders(e), free, tenv)
    ensures var (rest, free1) := CpsIfeq(a, b, y, no, cont, free + 1);
            && free < free1 && Free(rest) - {free} !! Binders(e) && AllBelow(Free(rest) - {free}, free1)
  {
    hide CpsIfeq, Binders, Free;
    CpsIfeqFree(a, b, y, no, cont, free + 1);
    var (rest, free1) := CpsIfeq(a, b, y, no, cont, free + 1);
    var ops, names := Free(a) + Free(b) - {free}, Free(rest) - {free};
    RestNames(Free(a), Free(b), Free(y), Free(no), Free(cont), free, scope, names);
    BelowJoin(ops, scope, ops + scope, free, free);
    BelowJoin(ops + scope, Free(cont), names, free, free1);
  }

  lemma RestNames(a: set<nat>, b: set<nat>, y: set<nat>, no: set<nat>, cont: set<nat>, x: nat, scope: set<nat>,
          names: set<nat>)
    requires names <= a + b + y + no + cont - {x} && y <= scope && no <= scope
    ensures names <= (a + b - {x}) + scope + cont
  {
  }

  /** The continuation is a variable. */
  lemma {:induction false} FirstRuns(delta: Delta, n: nat, e: Exp, env: Env, cont: Exp, free: nat, tenv: Env)
    returns (m: nat, tenv2: Env, w: Val)
    requires e.Ifeq? && cont.Var? && Eval(delta, n, e, env).Some? && Scoped(e, Dom(env), free) && EnvRel(env, tenv, {})
    requires ContOk(cont, Binders(e), free, tenv)
    ensures Rel(Eval(delta, n, e, env).value, w)
    ensures Passes(delta, m, CpsIfeq(e.a, e.b, e.yes, e.no, cont, free).0, tenv, cont, tenv2, w,
                   Binders(e) + Gens(free, CpsIfeq(e.a, e.b, e.yes, e.no, cont, free).1))
    decreases n, 0, 0
  {
    hide Rel, EnvRel, Steps, CpsExp, CpsIfeq;
    ScopedIfeq(e, Dom(env), free);
    var va := Eval(delta, n - 1, e.a, env).value;
    var same := Same(va, Eval(delta, n - 1, e.b, env).value).value;
    m, tenv2, w := OperandsRun(delta, n - 1, e, env, cont, free, tenv, va, same);
  }

  lemma {:induction false} OperandsRun(delta: Delta, n: nat, e: Exp, env: Env, cont: Exp, free: nat, tenv: Env,
          va: Val, same: bool)
    returns (m: nat, tenv2: Env, w: Val)
    requires e.Ifeq? && cont.Var? && Scoped(e, Dom(env), free) && EnvRel(env, tenv, {})
          && ContOk(cont, Binders(e), free, tenv)
    requires Eval(delta, n, e.a, env) == Some(va) && Eval(delta, n, e.b, env).Some?
    requires Same(va, Eval(delta, n, e.b, env).value) == Some(same)
          && Eval(delta, n, if same then e.yes else e.no, env).Some?
    ensures Rel(Eval(delta, n, if same then e.yes else e.no, env).value, w)
    ensures Passes(delta, m, CpsIfeq(e.a, e.b, e.yes, e.no, cont, free).0, tenv, cont, tenv2, w,
                   Binders(e) + Gens(free, CpsIfeq(e.a, e.b, e.yes, e.no, cont, free).1))
    decreases n, Weight(e), 5
  {
    hide Rel, EnvRel, Steps, CpsExp, CpsIfeq, Eval;
    ScopedIfeq(e, Dom(env), free);
    if e.a.Call? {
      m, tenv2, w := FirstCalled(delta, n, e, env, cont, free, tenv, va, same);
    } else {
      ScopedNames(e, Dom(env), free);
      PlainAtom(delta, n, e.a, env, tenv);
      var names, gens := Binders(e.b) + Binders(e.yes) + Binders(e.no),
          Gens(free, CpsIfeq(e.a, e.b, e.yes, e.no, cont, free).1);
      ContNarrow(cont, Binders(e), free, tenv, names, free);
      m, tenv2, w := SecondRuns(delta, n, e.a, e.b, e.yes, e.no, env, cont, free, tenv, va, same);
      PassMore(delta, m, CpsIfeq(e.a, e.b, e.yes, e.no, cont, free).0, tenv, cont, tenv2, w, names + gens,
               Binders(e) + gens);
    }
  }

  lemma {:induction false} FirstCalled(delta: Delta, n: nat, e: Exp, env: Env, cont: Exp, free: nat, tenv: Env,
          va: Val, same: bool)
    returns (m: nat, tenv2: Env, w: Val)
    requires e.Ifeq? && cont.Var? && Scoped(e, Dom(env), free) && EnvRel(env, tenv, {})
          && ContOk(cont, Binders(e), free, tenv)
    requires e.a.Call? && Eval(delta, n, e.a, env) == Some(va) && Eval(delta, n, e.b, env).Some?
    requires Same(va, Eval(delta, n, e.b, env).value) == Some(same)
          && Eval(delta, n, if same then e.yes else e.no, env).Some?
    ensures Rel(Eval(delta, n, if same then e.yes else e.no, env).value, w)
    ensures Passes(delta, m, CpsIfeq(e.a, e.b, e.yes, e.no, cont, free).0, tenv, cont, tenv2, w,
                   Binders(e) + Gens(free, CpsIfeq(e.a, e.b, e.yes, e.no, cont, free).1))
    decreases n, Weight(e), 4
  {
    hide Rel, EnvRel, Steps, CpsExp, CpsIfeq, Eval, Binders, Free, Lookup;
    ScopedIfeq(e, Dom(env), free);
    ScopedNames(e, Dom(env), free);
    var m1, t3, wa := NamedFirst(delta, n, e, env, cont, free, tenv);
    ScopedMore(e.b, Dom(env), free, free + 1);
    ScopedMore(e.yes, Dom(env), free, free + 1);
    ScopedMore(e.no, Dom(env), free, free + 1);
    var m2;
    m2, tenv2, w := SecondRuns(delta, n, Var(free), e.b, e.yes, e.no, env, cont, free + 1, t3, va, same);
    m := m1 + m2;
    var (e', free2) := CpsIfeq(e.a, e.b, e.yes, e.no, cont, free);
    var (rest, free1) := CpsIfeq(Var(free), e.b, e.yes, e.no, cont, free + 1);
    ReachPass(delta, m1, e', tenv, rest, t3, Binders(e.a) + Gens(free, free2), m2, cont, tenv2, w,
              Binders(e.b) + Binders(e.yes) + Binders(e.no) + Gens(free + 1, free1), Binders(e) + Gens(free, free2));
  }

  lemma ScopedNames(e: Exp, scope: set<nat>, free: nat)
    requires e.Ifeq? && Scoped(e, scope, free)
    ensures Free(e.a) !! Binders(e.b) && AllBelow(Free(e.a), free)
    ensures AllBelow(Free(Var(free)) + Free(e.b) - {free}, free) && Free(Var(free)) + Free(e.b) - {free} !! Binders(e.a)
    ensures AllBelow(Free(Var(free)), free + 1) && Free(Var(free)) !! Binders(e.b)
  {
  }

  lemma {:induction false} NamedFirst(delta: Delta, n: nat, e: Exp, env: Env, cont: Exp, free: nat, tenv: Env)
    returns (m: nat, t3: Env, wa: Val)
    requires e.Ifeq? && e.a.Call? && cont.Var? && Scoped(e, Dom(env), free) && EnvRel(env, tenv, {})
    requires ContOk(cont, Binders(e), free, tenv) && Eval(delta, n, e.a, env).Some?
    ensures Rel(Eval(delta, n, e.a, env).value, wa) && Lookup(t3, free) == Some(wa) && EnvRel(env, t3, {})
    ensures ContOk(cont, Binders(e.b) + Binders(e.yes) + Binders(e.no), free + 1, t3)
    ensures var (e', free2) := CpsIfeq(e.a, e.b, e.yes, e.no, cont, free);
            var (rest, free1) := CpsIfeq(Var(free), e.b, e.yes, e.no, cont, free + 1);
            free < free1 <= free2 && Reaches(delta, m, e', tenv, rest, t3, Binders(e.a) + Gens(free, free2))
    decreases n, Weight(e.a), 5
  {
    hide Rel, EnvRel, Steps, CpsExp, Eval;
    ScopedIfeq(e, Dom(env), free);
    ScopedNames(e, Dom(env), free);
    var Ifeq(a, b, y, no) := e;
    var (e', free2) := CpsIfeq(a, b, y, no, cont, free);
    var (rest, free1) := CpsIfeq(Var(free), b, y, no, cont, free + 1);
    ContNarrow(cont, Binders(e), free, tenv, Binders(a), free);
    IfeqRest(Var(free), b, y, no, cont, free, a, Dom(env), tenv);
    ScopedMore(a, Dom(env), free, free1);
    CpsFree(a, Lambda([free], rest), free1);
    NewName(a, Dom(env), free, free);
    m, t3, wa := Named(delta, n, a, env, free, rest, free1, tenv);
    var gens := Gens(free, free2);
    ReachMore(delta, m, e', tenv, rest, t3, Binders(a) + ({free} + Gens(free1, free2)), Binders(a) + gens);
    ContAfter(cont, Binders(e), free, tenv, t3, Binders(a), gens, Binders(b) + Binders(y) + Binders(no), free + 1);
  }

  lemma {:induction false} IfeqRuns(delta: Delta, n: nat, e: Exp, env: Env, cont: Exp, free: nat, tenv: Env)
    returns (m: nat, tenv2: Env, w: Val)
    requires e.Ifeq? && Eval(delta, n, e, env).Some? && Scoped(e, Dom(env), free) && EnvRel(env, tenv, {})
    requires ContOk(cont, Binders(e), free, tenv)
    ensures Rel(Eval(delta, n, e, env).value, w)
    ensures Passes(delta, m, CpsExp(e, cont, free).0, tenv, cont, tenv2, w,
                   Binders(e) + Gens(free, CpsExp(e, cont, free).1))
    decreases n, Weight(e), 1
  {
    hide Rel, EnvRel, Steps, Eval;
    if cont.Var? {
      m, tenv2, w := FirstRuns(delta, n, e, env, cont, free, tenv);
    } else {
      var (inner, free1) := CpsIfeq(e.a, e.b, e.yes, e.no, Var(free), free + 1);
      var k := AtomVal(cont, tenv).value;
      var t := Bind(free, k, tenv);
      NewName(e, Dom(env), free, free);
      Onward(env, tenv, t, {free});
      ScopedMore(e, Dom(env), free, free + 1);
      var m2, t2;
      m2, t2, w := FirstRuns(delta, n, e, env, Var(free), free + 1, t);
      AtomStays(Var(free), free + 1, t, t2, Binders(e), Gens(free + 1, free1));
      LetAtom(delta, free, inner, cont, tenv);
      m, tenv2 := m2 + 2, tenv;
      StepsJoin(delta, 2, m2, Ev(Call(Lambda([free], inner), [cont]), tenv), Ev(inner, t));
      assert CpsExp(e, cont, free).0 == Call(Lambda([free], inner), [cont]);
    }
  }

  /** A converted program, applied to any continuation, calls it with what the program evaluates to. */
  lemma ProgramRuns(delta: Delta, n: nat, e: Exp, free: nat, k: Val) returns (m: nat, w: Val)
    requires Eval(delta, n, e, Empty).Some? && Scoped(e, {}, free)
    ensures Rel(Eval(delta, n, e, Empty).value, w)
    ensures Steps(delta, m, Ap(Clo(Empty, CpsProgram(e, free).formals, CpsProgram(e, free).body), [k]))
         == Some(Ap(k, [w]))
  {
    var body, t := CpsExp(e, Var(free), free + 1).0, Bind(free, k, Empty);
    Continue(delta, free, body, Empty, k);
    var t2;
    m, t2, w := CpsRuns(delta, n, e, Empty, Var(free), free + 1, t);
    AtomStays(Var(free), free + 1, t, t2, Binders(e), Gens(free + 1, CpsExp(e, Var(free), free + 1).1));
    StepThen(delta, Ap(Clo(Empty, [free], body), [k]), Ev(body, t), m, Ap(k, [w]));
    m := m + 1;
  }
}
