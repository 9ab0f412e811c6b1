/** The compiler's syntax tree, for programs of variables, values, lambdas, calls and ifeq.  Names are
    the numbers of the generated symbols that alpha conversion leaves. */
module Ast {
  import opened Lists
  import opened Wrappers

  datatype Const = Num(n: int) | Op(op: nat)

  datatype Exp =
    | Value(val: Const)
    | Var(name: nat)
    | Lambda(formals: seq<nat>, body: Exp)
    | Call(rator: Exp, rands: seq<Exp>)
    | Ifeq(a: Exp, b: Exp, yes: Exp, no: Exp)

  function Free(e: Exp): set<nat> {
    match e
    case Value(_) => {}
    case Var(x) => {x}
    case Lambda(fs, b) => Free(b) - Elems(fs)
    case Call(f, es) => Free(f) + FreeAll(es)
    case Ifeq(a, b, y, n) => Free(a) + Free(b) + Free(y) + Free(n)
  }

  function FreeAll(es: seq<Exp>): set<nat> {
    if es == [] then {} else Free(es[0]) + FreeAll(es[1..])
  }

  function Binders(e: Exp): set<nat> {
    match e
    case Value(_) => {}
    case Var(_) => {}
    case Lambda(fs, b) => Elems(fs) + Binders(b)
    case Call(f, es) => Binders(f) + BindersAll(es)
    case Ifeq(a, b, y, n) => Binders(a) + Binders(b) + Binders(y) + Binders(n)
  }

  function BindersAll(es: seq<Exp>): set<nat> {
    if es == [] then {} else Binders(es[0]) + BindersAll(es[1..])
  }

  predicate Distinct(s: seq<nat>) {
    forall i, j :: 0 <= i < j < |s| ==> s[i] != s[j]
  }

  /** No name is bound twice. */
  predicate Unique(e: Exp) {
    match e
    case Value(_) => true
    case Var(_) => true
    case Lambda(fs, b) => Distinct(fs) && Elems(fs) !! Binders(b) && Unique(b)
    case Call(f, es) => Unique(f) && UniqueAll(es) && Binders(f) !! BindersAll(es)
    case Ifeq(a, b, y, n) =>
      && Unique(a) && Unique(b) && Unique(y) && Unique(n)
      && Binders(a) !! Binders(b) && (Binders(a) + Binders(b)) !! Binders(y)
      && (Binders(a) + Binders(b) + Binders(y)) !! Binders(n)
  }

  predicate UniqueAll(es: seq<Exp>) {
    es == [] || (Unique(es[0]) && Binders(es[0]) !! BindersAll(es[1..]) && UniqueAll(es[1..]))
  }

  // ---- Values ----

  datatype Env = Empty | Bind(x: nat, v: Val, rest: Env)

  datatype Val = Const(c: Const) | Clo(env: Env, formals: seq<nat>, body: Exp)

  function Lookup(env: Env, x: nat): Option<Val> {
    match env
    case Empty => None
    case Bind(y, v, rest) => if x == y then Some(v) else Lookup(rest, x)
  }

  function Dom(env: Env): set<nat> {
    match env
    case Empty => {}
    case Bind(x, _, rest) => {x} + Dom(rest)
  }

  function BindAll(env: Env, fs: seq<nat>, vs: seq<Val>): Env
    requires |fs| == |vs|
    decreases |fs|
  {
    if fs == [] then env else BindAll(Bind(fs[0], vs[0], env), fs[1..], vs[1..])
  }

  /** eq?: on closures it is a matter of where they are stored, which is not modelled. */
  function Same(v: Val, w: Val): Option<bool> {
    if v.Clo? && w.Clo? then None else Some(v == w)
  }

  /** What the primitives compute on numbers. */
  type Delta = (nat, seq<int>) -> Option<int>

  function Numbers(vs: seq<Val>): Option<seq<int>> {
    if vs == [] then Some([])
    else
      var rest := Numbers(vs[1..]);
      if vs[0].Const? && vs[0].c.Num? && rest.Some? then Some([vs[0].c.n] + rest.value) else None
  }

  function Compute(delta: Delta, op: nat, vs: seq<Val>): Option<Val> {
    var ns := Numbers(vs);
    if ns.None? then None
    else
      var r := delta(op, ns.value);
      if r.None? then None else Some(Const(Num(r.value)))
  }

  // ---- Direct style ----

  /** Call by value, operator first and operands from left to right, to a depth of n. */
  function Eval(delta: Delta, n: nat, e: Exp, env: Env): Option<Val>
    decreases n, 0
  {
    if n == 0 then None
    else match e
      case Value(c) => Some(Const(c))
      case Var(x) => Lookup(env, x)
      case Lambda(fs, b) => Some(Clo(env, fs, b))
      case Ifeq(a, b, y, no) =>
        var va, vb := Eval(delta, n - 1, a, env), Eval(delta, n - 1, b, env);
        if va.None? || vb.None? then None
        else
          var same := Same(va.value, vb.value);
          if same.None? then None
          else Eval(delta, n - 1, if same.value then y else no, env)
      case Call(f, es) =>
        var vf, vs := Eval(delta, n - 1, f, env), EvalAll(delta, n - 1, es, env);
        if vf.None? || vs.None? then None
        else match vf.value
          case Clo(cenv, fs, b) =>
            if |fs| != |vs.value| then None else Eval(delta, n - 1, b, BindAll(cenv, fs, vs.value))
          case Const(Op(op)) => Compute(delta, op, vs.value)
          case Const(Num(_)) => None
  }

  function EvalAll(delta: Delta, n: nat, es: seq<Exp>, env: Env): (vs: Option<seq<Val>>)
    ensures vs.Some? ==> |vs.value| == |es|
    decreases n, |es| + 1
  {
    if es == [] then Some([])
    else
      var v, rest := Eval(delta, n, es[0], env), EvalAll(delta, n, es[1..], env);
      if v.None? || rest.None? then None else Some([v.value] + rest.value)
  }

  // ---- After CPS conversion ----

  /** Something whose value is there without any calls. */
  predicate Atom(e: Exp) {
    e.Value? || e.Var? || e.Lambda?
  }

  function AtomVal(e: Exp, env: Env): Option<Val> {
    match e
    case Value(c) => Some(Const(c))
    case Var(x) => Lookup(env, x)
    case Lambda(fs, b) => Some(Clo(env, fs, b))
    case _ => None
  }

  function AtomVals(es: seq<Exp>, env: Env): (vs: Option<seq<Val>>)
    ensures vs.Some? ==> |vs.value| == |es|
  {
    if es == [] then Some([])
    else
      var v, rest := AtomVal(es[0], env), AtomVals(es[1..], env);
      if v.None? || rest.None? then None else Some([v.value] + rest.value)
  }

  datatype State = Ev(e: Exp, env: Env) | Ap(f: Val, args: seq<Val>)

  /** One step of converted code; calls have only atoms in them, and a primitive passes its result
      to its first argument. */
  function Step(delta: Delta, s: State): Option<State> {
    match s
    case Ev(Call(f, es), env) =>
      var vf, vs := AtomVal(f, env), AtomVals(es, env);
      if vf.None? || vs.None? then None else Some(Ap(vf.value, vs.value))
    case Ev(Ifeq(a, b, y, n), env) =>
      var va, vb := AtomVal(a, env), AtomVal(b, env);
      if va.None? || vb.None? then None
      else
        var same := Same(va.value, vb.value);
        if same.None? then None else Some(Ev(if same.value then y else n, env))
    case Ap(Clo(env, fs, b), args) => if |fs| != |args| then None else Some(Ev(b, BindAll(env, fs, args)))
    case Ap(Const(Op(op)), args) =>
      if args == [] then None
      else
        var r := Compute(delta, op, args[1..]);
        if r.None? then None else Some(Ap(args[0], [r.value]))
    case _ => None
  }

  function Steps(delta: Delta, n: nat, s: State): Option<State> {
    if n == 0 then Some(s)
    else
      var s' := Step(delta, s);
      if s'.None? then None else Steps(delta, n - 1, s'.value)
  }

  lemma {:induction false} StepsJoin(delta: Delta, m: nat, n: nat, s: State, t: State)
    requires Steps(delta, m, s) == Some(t)
    ensures Steps(delta, m + n, s) == Steps(delta, n, t)
    decreases m
  {
    if m > 0 { StepsJoin(delta, m - 1, n, Step(delta, s).value, t); }
  }

  lemma {:induction false} BindAllLookup(env: Env, fs: seq<nat>, vs: seq<Val>, x: nat)
    requires |fs| == |vs|
    ensures x !in fs ==> Lookup(BindAll(env, fs, vs), x) == Lookup(env, x)
    ensures forall i :: 0 <= i < |fs| && fs[i] == x && Distinct(fs) ==> Lookup(BindAll(env, fs, vs), x) == Some(vs[i])
    decreases |fs|
  {
    if fs != [] {
      var env' := Bind(fs[0], vs[0], env);
      BindAllLookup(env', fs[1..], vs[1..], x);
      if x == fs[0] && Distinct(fs) {
        assert x !in fs[1..];
        assert Lookup(BindAll(env, fs, vs), x) == Some(vs[0]);
      } else if Distinct(fs) {
        forall i | 0 <= i < |fs| && fs[i] == x ensures Lookup(BindAll(env, fs, vs), x) == Some(vs[i]) {
          assert fs[1..][i-1] == x;
        }
      }
    }
  }

  lemma {:induction false} BindAllDom(env: Env, fs: seq<nat>, vs: seq<Val>)
    requires |fs| == |vs|
    ensures Dom(BindAll(env, fs, vs)) == Dom(env) + Elems(fs)
    decreases |fs|
  {
    if fs != [] { BindAllDom(Bind(fs[0], vs[0], env), fs[1..], vs[1..]); }
  }
}
