/** CPS and closure conversion one after the other. */
module Middle {
  import opened Lists
  import opened Wrappers
  import opened Ast
  import opened Cps
  import C = Closure

  // ---- Converted programs, as closure conversion takes them ----

  function ConstIn(c: Const): C.Const {
    match c
    case Num(n) => C.Num(n)
    case Op(op) => C.Op(op)
  }

  function NamesIn(fs: seq<nat>): (r: seq<C.Name>)
    ensures |r| == |fs| && forall i :: 0 <= i < |fs| ==> r[i] == C.Gen(fs[i])
  {
    if fs == [] then [] else [C.Gen(fs[0])] + NamesIn(fs[1..])
  }

  function In(e: Exp): C.Exp {
    match e
    case Value(c) => C.Value(ConstIn(c))
    case Var(x) => C.Var(C.Gen(x))
    case Lambda(fs, b) => C.Lambda(NamesIn(fs), In(b))
    case Call(f, es) => C.Call(In(f), AllIn(es))
    case Ifeq(a, b, y, n) => C.Ifeq(In(a), In(b), In(y), In(n))
  }

  function AllIn(es: seq<Exp>): (r: seq<C.Exp>)
    ensures |r| == |es|
  {
    if es == [] then [] else [In(es[0])] + AllIn(es[1..])
  }

  function ValIn(v: Val): C.Val
    decreases v, 0
  {
    match v
    case Const(c) => C.Imm(ConstIn(c))
    case Clo(env, fs, b) => C.Clo(EnvIn(env), In(Lambda(fs, b)), [])
  }

  function EnvIn(env: Env): C.Env
    decreases env, 1
  {
    match env
    case Empty => C.Empty
    case Bind(x, v, rest) => C.Bind(C.Gen(x), ValIn(v), EnvIn(rest))
  }

  function ValsIn(vs: seq<Val>): (r: seq<C.Val>)
    ensures |r| == |vs|
  {
    if vs == [] then [] else [ValIn(vs[0])] + ValsIn(vs[1..])
  }

  function StateIn(s: State): C.State {
    match s
    case Ev(e, env) => C.Ev(In(e), EnvIn(env), [])
    case Ap(f, args) => C.Ap(ValIn(f), ValsIn(args))
  }

  // ---- They run alike ----

  lemma {:induction false} LookupIn(env: Env, x: nat)
    requires Lookup(env, x).Some?
    ensures C.Lookup(EnvIn(env), C.Gen(x)) == Some(ValIn(Lookup(env, x).value))
  {
    match env
    case Bind(y, _, rest) => if x != y { LookupIn(rest, x); }
  }

  lemma {:induction false} BindAllIn(env: Env, fs: seq<nat>, vs: seq<Val>)
    requires |fs| == |vs|
    ensures EnvIn(BindAll(env, fs, vs)) == C.BindAll(EnvIn(env), NamesIn(fs), ValsIn(vs))
    decreases |fs|
  {
    if fs != [] {
      BindAllIn(Bind(fs[0], vs[0], env), fs[1..], vs[1..]);
      assert NamesIn(fs)[1..] == NamesIn(fs[1..]) && ValsIn(vs)[1..] == ValsIn(vs[1..]);
    }
  }

  lemma AtomIn(e: Exp, env: Env)
    requires AtomVal(e, env).Some?
    ensures C.AtomVal(In(e), EnvIn(env), []) == Some(ValIn(AtomVal(e, env).value))
  {
    if e.Var? { LookupIn(env, e.name); }
  }

  lemma {:induction false} AtomsIn(es: seq<Exp>, env: Env)
    requires AtomVals(es, env).Some?
    ensures C.AtomVals(AllIn(es), EnvIn(env), []) == Some(ValsIn(AtomVals(es, env).value))
  {
    if es != [] {
      AtomIn(es[0], env);
      AtomsIn(es[1..], env);
      assert AllIn(es)[1..] == AllIn(es[1..]);
      var vs := AtomVals(es, env).value;
      assert vs[1..] == AtomVals(es[1..], env).value;
    }
  }

  lemma {:induction false} NumbersIn(vs: seq<Val>)
    requires Numbers(vs).Some?
    ensures C.Numbers(ValsIn(vs)) == Numbers(vs)
  {
    if vs != [] {
      NumbersIn(vs[1..]);
      assert ValsIn(vs)[1..] == ValsIn(vs[1..]);
    }
  }

  lemma SameIn(v: Val, w: Val)
    requires Same(v, w).Some?
    ensures C.Same(ValIn(v), ValIn(w)) == Same(v, w)
  {
  }

  lemma StepIn(delta: Delta, s: State)
    requires Step(delta, s).Some?
    ensures C.Step(delta, StateIn(s)) == Some(StateIn(Step(delta, s).value))
  {
    hide Lookup, BindAll, Numbers;
    match s
    case Ev(e, env) =>
      if e.Call? {
        AtomIn(e.rator, env);
        AtomsIn(e.rands, env);
      } else {
        AtomIn(e.a, env);
        AtomIn(e.b, env);
        SameIn(AtomVal(e.a, env).value, AtomVal(e.b, env).value);
      }
    case Ap(f, args) =>
      if f.Clo? {
        BindAllIn(f.env, f.formals, args);
      } else {
        NumbersIn(args[1..]);
        assert ValsIn(args)[1..] == ValsIn(args[1..]);
        var r := Compute(delta, f.c.op, args[1..]).value;
        assert [r][1..] == [] && ValsIn([r]) == [ValIn(r)];
      }
  }

  lemma {:induction false} StepsIn(delta: Delta, n: nat, s: State)
    requires Steps(delta, n, s).Some?
    ensures C.Steps(delta, n, StateIn(s)) == Some(StateIn(Steps(delta, n, s).value))
  {
    if n > 0 {
      StepIn(delta, s);
      StepsIn(delta, n - 1, Step(delta, s).value);
    }
  }

  // ---- What CPS leaves can be closed ----

  predicate Primop(e: Exp) {
    e.Value? && e.val.Op?
  }

  /** Primitives are given a continuation. */
  predicate Passed(e: Exp) {
    match e
    case Value(_) => true
    case Var(_) => true
    case Lambda(_, b) => Passed(b)
    case Call(f, es) => Passed(f) && PassedAll(es) && (Primop(f) ==> es != [] && Cont(es[0]))
    case Ifeq(a, b, y, n) => Passed(a) && Passed(b) && Passed(y) && Passed(n)
  }

  predicate PassedAll(es: seq<Exp>) {
    es == [] || (Passed(es[0]) && PassedAll(es[1..]))
  }

  predicate Cont(e: Exp) {
    e.Lambda? || e.Var?
  }

  /** A call that is being put together, last operand first. */
  predicate Ready(call: seq<Exp>) {
    && call != [] && PassedAll(call)
    && (Primop(call[|call|-1]) ==> |call| > 1 && Cont(call[|call|-2]))
  }

  lemma {:induction false} PassedJoin(a: seq<Exp>, b: seq<Exp>)
    ensures PassedAll(a + b) <==> PassedAll(a) && PassedAll(b)
  {
    if a == [] {
      assert a + b == b;
    } else {
      assert (a + b)[1..] == a[1..] + b;
      PassedJoin(a[1..], b);
    }
  }

  lemma {:induction false} ReversedIs(es: seq<Exp>)
    ensures forall i :: 0 <= i < |es| ==> Reversed(es)[i] == es[|es|-1-i]
    ensures PassedAll(es) ==> PassedAll(Reversed(es))
  {
    if es != [] {
      ReversedIs(es[1..]);
      PassedJoin(Reversed(es[1..]), [es[0]]);
    }
  }

  lemma ReadyCall(call: seq<Exp>)
    requires Ready(call)
    ensures Passed(Call(Reversed(call)[0], Reversed(call)[1..]))
  {
    ReversedIs(call);
    var all := Reversed(call);
    if |call| > 1 { assert all[1..][0] == all[1]; }
  }

  lemma ReadyMore(e: Exp, call: seq<Exp>)
    requires Ready(call) && Passed(e)
    ensures Ready([e] + call)
  {
    assert ([e] + call)[1..] == call;
  }

  lemma {:induction false} CpsPassed(e: Exp, cont: Exp, free: nat)
    requires Proper(e) && Cont(cont) && Passed(cont)
    ensures Passed(CpsExp(e, cont, free).0)
    decreases Weight(e), 2
  {
    match e
    case Value(_) => assert [e][1..] == [] && PassedAll([e][1..]);
    case Var(_) => assert [e][1..] == [] && PassedAll([e][1..]);
    case Lambda(fs, b) =>
      LambdaPassed(fs, b, free);
      var lexp := CpsLambda(fs, b, free).0;
      assert [lexp][1..] == [] && PassedAll([lexp][1..]);
    case Call(f, es) => CallPassed(f, es, cont, free);
    case Ifeq(a, b, y, n) => IfeqPassed(a, b, y, n, cont, free);
  }

  lemma {:induction false} LambdaPassed(fs: seq<nat>, b: Exp, free: nat)
    requires Proper(b)
    ensures Passed(CpsLambda(fs, b, free).0)
    decreases Weight(b), 3
  {
    CpsPassed(b, Var(free), free + 1);
  }

  lemma {:induction false} ArgsPassed(es: seq<Exp>, call: seq<Exp>, free: nat)
    requires ProperAll(es) && Ready(call)
    ensures Passed(CpsArgs(es, call, free).0)
    decreases WeightAll(es), 3
  {
    if es == [] {
      ReadyCall(call);
    } else {
      match es[0]
      case Lambda(fs, b) =>
        assert Weight(es[0]) == 1 + Weight(b);
        LambdaPassed(fs, b, free);
        var (lexp, free1) := CpsLambda(fs, b, free);
        ReadyMore(lexp, call);
        ArgsPassed(es[1..], [lexp] + call, free1);
      case Value(_) =>
        ReadyMore(es[0], call);
        ArgsPassed(es[1..], [es[0]] + call, free);
      case Var(_) =>
        ReadyMore(es[0], call);
        ArgsPassed(es[1..], [es[0]] + call, free);
      case _ =>
        ReadyMore(Var(free), call);
        ArgsPassed(es[1..], [Var(free)] + call, free + 1);
        var (rest, free1) := CpsArgs(es[1..], [Var(free)] + call, free + 1);
        CpsPassed(es[0], Lambda([free], rest), free1);
    }
  }

  lemma OneReady(e: Exp)
    requires Passed(e) && !Primop(e)
    ensures Ready([e])
  {
    assert [e][1..] == [] && PassedAll([e][1..]);
  }

  lemma PairReady(cont: Exp, f: Exp)
    requires Cont(cont) && Passed(cont) && Passed(f)
    ensures Ready([cont, f])
  {
    assert [cont, f][1..] == [f] && [f][1..] == [] && PassedAll([f][1..]);
  }

  lemma {:induction false} CallPassed(f: Exp, es: seq<Exp>, cont: Exp, free: nat)
    requires Proper(Call(f, es)) && Cont(cont) && Passed(cont)
    ensures Passed(CpsCall(f, es, cont, free).0)
    decreases Weight(f) + WeightAll(es) + (if f.Ifeq? then 10 else 0) + 1, 3
  {
    match f
    case Lambda(fs, b) =>
      CpsPassed(b, cont, free);
      var (body, free1) := CpsExp(b, cont, free);
      if fs != [] {
        OneReady(Lambda(fs, body));
        ArgsPassed(es, [Lambda(fs, body)], free1);
      }
    case Call(_, _) =>
      PairReady(cont, Var(free));
      ArgsPassed(es, [cont, Var(free)], free + 1);
      var (call, free1) := CpsArgs(es, [cont, Var(free)], free + 1);
      CpsPassed(f, Lambda([free], call), free1);
    case Ifeq(_, _, _, _) =>
      var named := Lambda([free], Call(Var(free), es));
      assert [f][1..] == [] && WeightAll([f][1..]) == 0;
      assert WeightAll([f]) == Weight(f) + 1;
      assert Weight(Var(free)) == 1;
      assert Weight(Call(Var(free), es)) == 3 + WeightAll(es);
      assert Weight(Call(named, [f])) == 2 + Weight(named) + WeightAll([f]);
      assert Proper(Call(Var(free), es)) && [f][1..] == [] && ProperAll([f][1..]);
      CpsPassed(Call(named, [f]), cont, free + 1);
    case _ =>
      PairReady(cont, f);
      ArgsPassed(es, [cont, f], free);
  }

  lemma {:induction false} IfeqPassed(a: Exp, b: Exp, y: Exp, n: Exp, cont: Exp, free: nat)
    requires Proper(Ifeq(a, b, y, n)) && Cont(cont) && Passed(cont)
    ensures Passed(CpsIfeq(a, b, y, n, cont, free).0)
    decreases Weight(a) + Weight(b) + Weight(y) + Weight(n) + 1,
              (if a.Call? then 1 else 0) + (if b.Call? then 1 else 0) + if cont.Var? then 0 else 3, 0
  {
    if !cont.Var? {
      IfeqPassed(a, b, y, n, Var(free), free + 1);
      assert [cont][1..] == [] && PassedAll([cont][1..]);
    } else if a.Call? {
      IfeqPassed(Var(free), b, y, n, cont, free + 1);
      var (rest, free1) := CpsIfeq(Var(free), b, y, n, cont, free + 1);
      CpsPassed(a, Lambda([free], rest), free1);
    } else if b.Call? {
      IfeqPassed(a, Var(free), y, n, cont, free + 1);
      var (rest, free1) := CpsIfeq(a, Var(free), y, n, cont, free + 1);
      CpsPassed(b, Lambda([free], rest), free1);
    } else {
      CpsPassed(y, cont, free);
      CpsPassed(n, cont, CpsExp(y, cont, free).1);
    }
  }

  // ---- Both conversions ----

  lemma {:induction false} InConvertible(e: Exp)
    requires Passed(e)
    ensures C.Convertible(In(e)) && C.NoFoo(In(e))
  {
    match e
    case Value(_) =>
    case Var(_) =>
    case Lambda(_, b) => InConvertible(b);
    case Call(f, es) =>
      InConvertible(f);
      AllInConvertible(es);
      if es != [] { assert AllIn(es)[0] == In(es[0]); }
    case Ifeq(a, b, y, n) =>
      InConvertible(a);
      InConvertible(b);
      InConvertible(y);
      InConvertible(n);
  }

  lemma {:induction false} AllInConvertible(es: seq<Exp>)
    requires PassedAll(es)
    ensures C.ConvertibleAll(AllIn(es)) && C.NoFooAll(AllIn(es))
  {
    if es != [] {
      InConvertible(es[0]);
      AllInConvertible(es[1..]);
      assert AllIn(es)[1..] == AllIn(es[1..]);
    }
  }

  lemma {:induction false} NamesInElems(fs: seq<nat>)
    ensures forall x :: C.Gen(x) in Elems(NamesIn(fs)) <==> x in Elems(fs)
  {
    forall x ensures C.Gen(x) in Elems(NamesIn(fs)) <==> x in Elems(fs) {
      if x in fs {
        var i :| 0 <= i < |fs| && fs[i] == x;
        assert NamesIn(fs)[i] == C.Gen(x);
      }
    }
  }

  lemma {:induction false} FreeIn(e: Exp, x: C.Name)
    requires x in C.Free(In(e))
    ensures x.Gen? && x.n in Free(e)
  {
    match e
    case Value(_) =>
    case Var(_) =>
    case Lambda(fs, b) =>
      FreeIn(b, x);
      NamesInElems(fs);
    case Call(f, es) => if x in C.Free(In(f)) { FreeIn(f, x); } else { FreeAllIn(es, x); }
    case Ifeq(a, b, y, n) =>
      if x in C.Free(In(a)) { FreeIn(a, x); }
      else if x in C.Free(In(b)) { FreeIn(b, x); }
      else if x in C.Free(In(y)) { FreeIn(y, x); }
      else { FreeIn(n, x); }
  }

  lemma {:induction false} FreeAllIn(es: seq<Exp>, x: C.Name)
    requires x in C.FreeAll(AllIn(es))
    ensures x.Gen? && x.n in FreeAll(es)
  {
    assert AllIn(es)[1..] == AllIn(es[1..]);
    if x in C.Free(In(es[0])) { FreeIn(es[0], x); } else { FreeAllIn(es[1..], x); }
  }

  lemma ProgramIn(e: Exp, free: nat)
    requires Scoped(e, {}, free)
    ensures C.Program(In(CpsProgram(e, free))) && C.NoFoo(In(CpsProgram(e, free)))
  {
    var p := CpsProgram(e, free);
    CpsPassed(e, Var(free), free + 1);
    InConvertible(p);
    CpsFree(e, Var(free), free + 1);
    assert Free(p) == {};
    forall x | x in C.Free(In(p)) ensures x.Gen? && x.n in Free(p) {
      FreeIn(p, x);
    }
  }

  /** What a value of the program has become after both conversions. */
  ghost predicate Became(v: Val, w: C.Val) {
    exists mid :: Rel(v, mid) && C.Rel(ValIn(mid), w)
  }

  /** A program that evaluates to a value is, after both conversions, code without free variables that passes
      what the value has become to its continuation. */
  lemma BothRun(delta: Delta, n: nat, e: Exp, free: nat) returns (m: nat, w: C.Val)
    requires Eval(delta, n, e, Empty).Some? && Scoped(e, {}, free)
    ensures Became(Eval(delta, n, e, Empty).value, w)
    ensures forall c :: Eval(delta, n, e, Empty) == Some(Const(c)) ==> w == C.Imm(ConstIn(c))
    ensures C.Build(In(CpsProgram(e, free))).Some? && C.Build(In(CpsProgram(e, free))).value.Code?
    ensures var built, k := C.Build(In(CpsProgram(e, free))).value, C.Imm(C.Num(0));
            C.Steps(delta, m, C.Ap(C.Clo(C.Empty, built.code, built.lits), [k])) == Some(C.Ap(k, [w]))
  {
    var k, p := Const(Num(0)), CpsProgram(e, free);
    var m1, mid := ProgramRuns(delta, n, e, free, k);
    ProgramIn(e, free);
    var start := Ap(Clo(Empty, p.formals, p.body), [k]);
    StepsIn(delta, m1, start);
    assert ValsIn([k]) == [ValIn(k)] by { assert [k][1..] == []; }
    assert ValsIn([mid]) == [ValIn(mid)] by { assert [mid][1..] == []; }
    assert p == Lambda(p.formals, p.body) && ValIn(start.f) == C.Clo(C.Empty, In(p), []);
    assert StateIn(start) == C.Ap(C.Clo(C.Empty, In(p), []), [ValIn(k)]);
    assert StateIn(Ap(k, [mid])) == C.Ap(ValIn(k), [ValIn(mid)]) && ValIn(k) == C.Imm(C.Num(0));
    var results;
    m, results := C.BuiltRuns(delta, In(p), m1, [ValIn(k)], [ValIn(k)], C.Num(0), [ValIn(mid)]);
    w := results[0];
    assert results == [w];
  }
}
