/** Letrec elimination: how the calls of functions that are bound together are rewritten. */
module Recursion {
  import opened Lists
  import opened Wrappers
  import opened Ast

  /** A function of a group: the names are those of the group that it depends on, itself included. */
  datatype Def = Def(name: nat, formals: seq<nat>, body: Exp, deps: seq<nat>)

  function Names(defs: seq<Def>): (r: seq<nat>)
    ensures |r| == |defs| && forall i :: 0 <= i < |r| ==> r[i] == defs[i].name
  {
    if defs == [] then [] else [defs[0].name] + Names(defs[1..])
  }

  function Recs(defs: seq<Def>): map<nat, Def> {
    map x | x in Elems(Names(defs)) :: defs[Place(defs, x)]
  }

  function Place(defs: seq<Def>, x: nat): (i: nat)
    requires x in Names(defs)
    ensures i < |defs| && defs[i].name == x
  {
    if defs[0].name == x then 0 else 1 + Place(defs[1..], x)
  }

  // ---- What recursive bindings mean ----

  /** Bindings, those of groups among them: a function of a group sees its whole group. */
  datatype Store = Top | Local(x: nat, v: Item, rest: Store) | Group(defs: seq<Def>, rest: Store)

  datatype Item = Datum(c: Const) | Fun(env: Store, formals: seq<nat>, body: Exp)

  function Get(env: Store, x: nat): Option<Item> {
    match env
    case Top => None
    case Local(y, v, rest) => if x == y then Some(v) else Get(rest, x)
    case Group(defs, rest) =>
      if x in Names(defs) then Some(Fun(env, defs[Place(defs, x)].formals, defs[Place(defs, x)].body)) else Get(rest, x)
  }

  function PutAll(env: Store, fs: seq<nat>, vs: seq<Item>): Store
    requires |fs| == |vs|
    decreases |fs|
  {
    if fs == [] then env else PutAll(Local(fs[0], vs[0], env), fs[1..], vs[1..])
  }

  function Alike(v: Item, w: Item): Option<bool> {
    if v.Fun? && w.Fun? then None else Some(v == w)
  }

  function Data(vs: seq<Item>): Option<seq<int>> {
    if vs == [] then Some([])
    else
      var rest := Data(vs[1..]);
      if vs[0].Datum? && vs[0].c.Num? && rest.Some? then Some([vs[0].c.n] + rest.value) else None
  }

  /** Call by value, to a depth of n. */
  function Yield(delta: Delta, n: nat, e: Exp, env: Store): Option<Item>
    decreases n, 0
  {
    if n == 0 then None
    else match e
      case Value(c) => Some(Datum(c))
      case Var(x) => Get(env, x)
      case Lambda(fs, b) => Some(Fun(env, fs, b))
      case Ifeq(a, b, y, no) =>
        var va, vb := Yield(delta, n - 1, a, env), Yield(delta, n - 1, b, env);
        if va.None? || vb.None? then None
        else
          var same := Alike(va.value, vb.value);
          if same.None? then None else Yield(delta, n - 1, if same.value then y else no, env)
      case Call(f, es) =>
        var vf, vs := Yield(delta, n - 1, f, env), YieldAll(delta, n - 1, es, env);
        if vf.None? || vs.None? then None else Apply(delta, n - 1, vf.value, vs.value)
  }

  function Apply(delta: Delta, n: nat, f: Item, vs: seq<Item>): Option<Item>
    decreases n, 1
  {
    match f
    case Fun(env, fs, b) => if |fs| != |vs| then None else Yield(delta, n, b, PutAll(env, fs, vs))
    case Datum(Op(op)) =>
      var ns := Data(vs);
      if ns.None? || delta(op, ns.value).None? then None else Some(Datum(Num(delta(op, ns.value).value)))
    case Datum(Num(_)) => None
  }

  function YieldAll(delta: Delta, n: nat, es: seq<Exp>, env: Store): (vs: Option<seq<Item>>)
    ensures vs.Some? ==> |vs.value| == |es|
    decreases n, |es| + 1
  {
    if es == [] then Some([])
    else
      var v, rest := Yield(delta, n, es[0], env), YieldAll(delta, n, es[1..], env);
      if v.None? || rest.None? then None else Some([v.value] + rest.value)
  }

  // ---- More depth changes nothing ----

  lemma {:induction false} YieldMore(delta: Delta, n: nat, m: nat, e: Exp, env: Store)
    requires Yield(delta, n, e, env).Some? && n <= m
    ensures Yield(delta, m, e, env) == Yield(delta, n, e, env)
    decreases n, 0
  {
    match e
    case Value(_) =>
    case Var(_) =>
    case Lambda(_, _) =>
    case Ifeq(a, b, y, no) =>
      YieldMore(delta, n - 1, m - 1, a, env);
      YieldMore(delta, n - 1, m - 1, b, env);
      var same := Alike(Yield(delta, n - 1, a, env).value, Yield(delta, n - 1, b, env).value).value;
      YieldMore(delta, n - 1, m - 1, if same then y else no, env);
    case Call(f, es) =>
      YieldMore(delta, n - 1, m - 1, f, env);
      YieldAllMore(delta, n - 1, m - 1, es, env);
      ApplyMore(delta, n - 1, m - 1, Yield(delta, n - 1, f, env).value, YieldAll(delta, n - 1, es, env).value);
  }

  lemma {:induction false} ApplyMore(delta: Delta, n: nat, m: nat, f: Item, vs: seq<Item>)
    requires Apply(delta, n, f, vs).Some? && n <= m
    ensures Apply(delta, m, f, vs) == Apply(delta, n, f, vs)
    decreases n, 1
  {
    if f.Fun? { YieldMore(delta, n, m, f.body, PutAll(f.env, f.formals, vs)); }
  }

  lemma {:induction false} YieldAllMore(delta: Delta, n: nat, m: nat, es: seq<Exp>, env: Store)
    requires YieldAll(delta, n, es, env).Some? && n <= m
    ensures YieldAll(delta, m, es, env) == YieldAll(delta, n, es, env)
    decreases n, |es| + 1
  {
    if es != [] {
      YieldMore(delta, n, m, es[0], env);
      YieldAllMore(delta, n, m, es[1..], env);
    }
  }

  // ---- The rewriting ----

  function Vars(names: seq<nat>): (r: seq<Exp>)
    ensures |r| == |names| && forall i :: 0 <= i < |r| ==> r[i] == Var(names[i])
  {
    if names == [] then [] else [Var(names[0])] + Vars(names[1..])
  }

  /** A function of the group where it is not called: a lambda that calls it with what it depends on. */
  function Wrapper(d: Def): Exp {
    Lambda(d.formals, Call(Var(d.name), Vars(d.formals + d.deps)))
  }

  /** carry-bindings, which is strict: calls of the functions in rec get what these depend on as further operands.
      The operands are rewritten with the function's formals bound, and a wrong number of them is an error.
      carry-simple-recursion does neither. */
  function Carry(e: Exp, rec: map<nat, Def>, strict: bool): Option<Exp> {
    match e
    case Value(_) => Some(e)
    case Var(x) => Some(if x in rec then Wrapper(rec[x]) else e)
    case Lambda(fs, b) =>
      var b' :- Carry(b, rec - Elems(fs), strict);
      Some(Lambda(fs, b'))
    case Ifeq(a, b, y, n) =>
      var a' :- Carry(a, rec, strict);
      var b' :- Carry(b, rec, strict);
      var y' :- Carry(y, rec, strict);
      var n' :- Carry(n, rec, strict);
      Some(Ifeq(a', b', y', n'))
    case Call(f, es) =>
      if f.Var? && f.name in rec then
        var d := rec[f.name];
        if strict && |d.formals| != |es| then None
        else
          var es' :- CarryAll(es, if strict then rec - Elems(d.formals) else rec, strict);
          Some(Call(f, es' + Vars(d.deps)))
      else
        var f' :- Carry(f, rec, strict);
        var es' :- CarryAll(es, rec, strict);
        Some(Call(f', es'))
  }

  function CarryAll(es: seq<Exp>, rec: map<nat, Def>, strict: bool): (r: Option<seq<Exp>>)
    ensures r.Some? ==> |r.value| == |es|
  {
    if es == [] then Some([])
    else
      var e' :- Carry(es[0], rec, strict);
      var es' :- CarryAll(es[1..], rec, strict);
      Some([e'] + es')
  }

  /** What is rewritten depends on the free names only. */
  lemma {:induction false} CarryAgree(e: Exp, r1: map<nat, Def>, r2: map<nat, Def>, strict: bool)
    requires forall x :: x in Free(e) ==> (x in r1 <==> x in r2) && (x in r1 ==> r1[x] == r2[x])
    ensures Carry(e, r1, strict) == Carry(e, r2, strict)
  {
    match e
    case Value(_) =>
    case Var(x) =>
    case Lambda(fs, b) => CarryAgree(b, r1 - Elems(fs), r2 - Elems(fs), strict);
    case Ifeq(a, b, y, n) =>
      CarryAgree(a, r1, r2, strict);
      CarryAgree(b, r1, r2, strict);
      CarryAgree(y, r1, r2, strict);
      CarryAgree(n, r1, r2, strict);
    case Call(f, es) =>
      CarryAgree(f, r1, r2, strict);
      CarryAllAgree(es, r1, r2, strict);
      if f.Var? && f.name in r1 {
        var fs := Elems(r1[f.name].formals);
        CarryAllAgree(es, r1 - fs, r2 - fs, strict);
      }
  }

  lemma {:induction false} CarryAllAgree(es: seq<Exp>, r1: map<nat, Def>, r2: map<nat, Def>, strict: bool)
    requires forall x :: x in FreeAll(es) ==> (x in r1 <==> x in r2) && (x in r1 ==> r1[x] == r2[x])
    ensures CarryAll(es, r1, strict) == CarryAll(es, r2, strict)
  {
    if es != [] {
      CarryAgree(es[0], r1, r2, strict);
      CarryAllAgree(es[1..], r1, r2, strict);
    }
  }

  lemma {:induction false} CarryNone(e: Exp, strict: bool)
    ensures Carry(e, map[], strict) == Some(e)
  {
    var none: map<nat, Def> := map[];
    match e
    case Value(_) =>
    case Var(x) =>
    case Lambda(fs, b) =>
      assert none - Elems(fs) == none;
      CarryNone(b, strict);
    case Ifeq(a, b, y, n) =>
      CarryNone(a, strict);
      CarryNone(b, strict);
      CarryNone(y, strict);
      CarryNone(n, strict);
    case Call(f, es) =>
      CarryNone(f, strict);
      CarryAllNone(es, strict);
  }

  lemma {:induction false} CarryAllNone(es: seq<Exp>, strict: bool)
    ensures CarryAll(es, map[], strict) == Some(es)
  {
    if es != [] {
      CarryNone(es[0], strict);
      CarryAllNone(es[1..], strict);
      assert es == [es[0]] + es[1..];
    }
  }

  // ---- When it captures nothing ----

  /** No binder comes between a name that is rewritten and what is passed to it; and, where the operands of a call
      are rewritten with the function's formals bound, no formal is a name of theirs that has to be rewritten. */
  predicate Safe(e: Exp, rec: map<nat, Def>, strict: bool) {
    match e
    case Value(_) => true
    case Var(_) => true
    case Lambda(fs, b) =>
      && Safe(b, rec - Elems(fs), strict)
      && forall x :: x in Free(b) && x in rec && x !in fs ==> Elems(rec[x].deps) !! Elems(fs)
    case Ifeq(a, b, y, n) =>
      Safe(a, rec, strict) && Safe(b, rec, strict) && Safe(y, rec, strict) && Safe(n, rec, strict)
    case Call(f, es) =>
      && Safe(f, rec, strict) && SafeAll(es, rec, strict)
      && (strict && f.Var? && f.name in rec ==> forall x :: x in FreeAll(es) && x in rec ==> x !in rec[f.name].formals)
  }

  predicate SafeAll(es: seq<Exp>, rec: map<nat, Def>, strict: bool) {
    es == [] || (Safe(es[0], rec, strict) && SafeAll(es[1..], rec, strict))
  }

  /** Every call of a function of rec has as many operands as the function has formals. */
  predicate Counted(e: Exp, rec: map<nat, Def>) {
    match e
    case Value(_) => true
    case Var(_) => true
    case Lambda(fs, b) => Counted(b, rec - Elems(fs))
    case Ifeq(a, b, y, n) => Counted(a, rec) && Counted(b, rec) && Counted(y, rec) && Counted(n, rec)
    case Call(f, es) =>
      && Counted(f, rec) && CountedAll(es, rec)
      && (f.Var? && f.name in rec ==> |rec[f.name].formals| == |es|)
  }

  predicate CountedAll(es: seq<Exp>, rec: map<nat, Def>) {
    es == [] || (Counted(es[0], rec) && CountedAll(es[1..], rec))
  }

  /** A wrong number of operands is all that can go wrong. */
  lemma {:induction false} CarriedExactly(e: Exp, rec: map<nat, Def>)
    requires Safe(e, rec, true)
    ensures Carry(e, rec, true).Some? <==> Counted(e, rec)
  {
    match e
    case Value(_) =>
    case Var(_) =>
    case Lambda(fs, b) => CarriedExactly(b, rec - Elems(fs));
    case Ifeq(a, b, y, n) =>
      CarriedExactly(a, rec);
      CarriedExactly(b, rec);
      CarriedExactly(y, rec);
      CarriedExactly(n, rec);
    case Call(f, es) =>
      CarriedExactly(f, rec);
      CarriedAllExactly(es, rec);
      if f.Var? && f.name in rec { CarryAllAgree(es, rec - Elems(rec[f.name].formals), rec, true); }
  }

  lemma {:induction false} CarriedAllExactly(es: seq<Exp>, rec: map<nat, Def>)
    requires SafeAll(es, rec, true)
    ensures CarryAll(es, rec, true).Some? <==> CountedAll(es, rec)
  {
    if es != [] {
      CarriedExactly(es[0], rec);
      CarriedAllExactly(es[1..], rec);
    }
  }

  /** What the functions that are used depend on are functions of rec too. */
  ghost predicate Whole(names: set<nat>, rec: map<nat, Def>) {
    forall x :: x in names && x in rec ==> x in rec[x].deps && Elems(rec[x].deps) <= rec.Keys
  }

  /** The names that are used after the rewriting. */
  ghost function Need(names: set<nat>, rec: map<nat, Def>): set<nat> {
    names + set x, y | x in names && x in rec && y in rec[x].deps :: y
  }

  /** A function of a group can be given what it depends on in further formals. */
  predicate DefOk(d: Def, defs: seq<Def>) {
    && Distinct(d.formals) && Distinct(d.deps) && Elems(d.formals) !! Elems(d.deps)
    && d.name in d.deps && Elems(d.deps) <= Elems(Names(defs))
    && (forall x :: x in Free(d.body) && x in Names(defs) ==> x in d.deps)
    && Safe(d.body, Recs(defs), true) && Counted(d.body, Recs(defs))
  }

  predicate GroupOk(defs: seq<Def>) {
    && Distinct(Names(defs)) && (forall d :: d in defs ==> DefOk(d, defs))
    && forall d, e :: d in defs && e in defs && e.name in d.deps ==> Elems(e.deps) <= Elems(d.deps)
  }

  // ---- Values before and after ----

  ghost predicate Sub(rec: map<nat, Def>, defs: seq<Def>) {
    forall x :: x in rec ==> x in Names(defs) && rec[x] == defs[Place(defs, x)]
  }

  /** w is what v has become: the same datum, a function with rewritten code, or a wrapper of a function of a group. */
  ghost predicate Rel(v: Item, w: Item)
    decreases v, 0
  {
    match v
    case Datum(_) => w == v
    case Fun(env, fs, b) =>
      && w.Fun? && w.formals == fs
      && ((exists rec, strict :: Rewritten(env, fs, b, w, rec, strict))
          || (env.Group? && exists d :: Wraps(env, fs, b, d) && Wrapped(env.defs, env.rest, d, w)))
  }

  ghost predicate Wraps(env: Store, fs: seq<nat>, b: Exp, d: Def)
    requires env.Group?
  {
    GroupOk(env.defs) && d in env.defs && d.formals == fs && d.body == b
  }

  ghost predicate Rewritten(env: Store, fs: seq<nat>, b: Exp, w: Item, rec: map<nat, Def>, strict: bool)
    decreases env, 5
  {
    && w.Fun? && Carry(Lambda(fs, b), rec, strict) == Some(Lambda(fs, w.body))
    && Ready(Lambda(fs, b), env, w.env, rec, strict)
  }

  /** Rewritten code can be run in t when the code was to be run in env. */
  ghost predicate Ready(e: Exp, env: Store, t: Store, rec: map<nat, Def>, strict: bool)
    decreases env, 4
  {
    Safe(e, rec, strict) && Whole(Free(e), rec) && EnvRel(env, t, Need(Free(e), rec), rec)
  }

  /** The names that are needed have in t what they have become: those of rec functions with further formals, others
      what has become of their values. */
  ghost predicate EnvRel(env: Store, t: Store, need: set<nat>, rec: map<nat, Def>)
    decreases env, 3
  {
    match env
    case Top => true
    case Local(x, v, rest) =>
      && (x in need ==> x !in rec && Get(t, x).Some? && Rel(v, Get(t, x).value))
      && EnvRel(rest, t, need - {x}, rec)
    case Group(defs, rest) =>
      && GroupOk(defs)
      && (forall x :: x in need && x in Names(defs) ==> Get(t, x).Some? && Member(defs, rest, x, Get(t, x).value, rec))
      && EnvRel(rest, t, need - Elems(Names(defs)), rec)
  }

  ghost predicate Member(defs: seq<Def>, rest: Store, x: nat, w: Item, rec: map<nat, Def>)
    requires x in Names(defs)
    decreases rest, 7
  {
    var d := defs[Place(defs, x)];
    if x in rec then Sub(rec, defs) && Extended(defs, rest, d, w) else Wrapped(defs, rest, d, w)
  }

  /** u is function d of the group, with further formals for what it depends on. */
  ghost predicate Extended(defs: seq<Def>, rest: Store, d: Def, u: Item)
    decreases rest, 5
  {
    && d in defs && u.Fun? && u.formals == d.formals + d.deps && Carry(d.body, Recs(defs), true) == Some(u.body)
    && EnvRel(rest, u.env, Free(d.body) - Elems(d.formals) - Elems(Names(defs)), map[])
  }

  /** w calls function d with its operands and with what it depends on. */
  ghost predicate Wrapped(defs: seq<Def>, rest: Store, d: Def, w: Item)
    decreases rest, 6
  {
    && w.Fun? && Lambda(w.formals, w.body) == Wrapper(d)
    && forall y :: y in d.deps ==>
         y in Names(defs) && Get(w.env, y).Some? && Extended(defs, rest, defs[Place(defs, y)], Get(w.env, y).value)
  }

  ghost predicate RelAll(vs: seq<Item>, ws: seq<Item>) {
    |vs| == |ws| && forall i :: 0 <= i < |vs| ==> Rel(vs[i], ws[i])
  }

  // ---- Lookup ----

  lemma PlaceOnly(defs: seq<Def>, d: Def)
    requires Distinct(Names(defs)) && d in defs
    ensures d.name in Names(defs) && defs[Place(defs, d.name)] == d
  {
    var i :| 0 <= i < |defs| && defs[i] == d;
    assert Names(defs)[i] == d.name && Names(defs)[Place(defs, d.name)] == d.name;
  }

  ghost predicate Narrower(r: map<nat, Def>, rec: map<nat, Def>) {
    forall x :: x in r ==> x in rec && r[x] == rec[x]
  }

  /** The relation only depends on what is needed. */
  lemma {:induction false} EnvRelMove(env: Store, t1: Store, t2: Store, n1: set<nat>, n2: set<nat>, r1: map<nat, Def>,
          r2: map<nat, Def>)
    requires EnvRel(env, t1, n1, r1) && n2 <= n1
    requires forall x :: x in n2 ==> Get(t1, x) == Get(t2, x)
    requires forall x :: x in n2 ==> (x in r1 <==> x in r2)
    requires Narrower(r2, r1) || forall x :: x in n2 ==> x !in r1
    ensures EnvRel(env, t2, n2, r2)
    decreases env
  {
    match env
    case Top =>
    case Local(x, v, rest) => EnvRelMove(rest, t1, t2, n1 - {x}, n2 - {x}, r1, r2);
    case Group(defs, rest) =>
      EnvRelMove(rest, t1, t2, n1 - Elems(Names(defs)), n2 - Elems(Names(defs)), r1, r2);
  }

  lemma {:induction false} GetPlain(env: Store, t: Store, need: set<nat>, rec: map<nat, Def>, x: nat)
    requires EnvRel(env, t, need, rec) && x in need && x !in rec && Get(env, x).Some?
    ensures Get(t, x).Some? && Rel(Get(env, x).value, Get(t, x).value)
    decreases env
  {
    match env
    case Local(y, v, rest) => if x != y { GetPlain(rest, t, need - {y}, rec, x); }
    case Group(defs, rest) =>
      if x in Names(defs) {
        var d := defs[Place(defs, x)];
        assert d in defs && Wraps(env, d.formals, d.body, d) && Wrapped(defs, rest, d, Get(t, x).value);
      } else {
        GetPlain(rest, t, need - Elems(Names(defs)), rec, x);
      }
  }

  /** A function that is rewritten is one of a group, and so are all others that are needed. */
  lemma {:induction false} GroupFound(env: Store, t: Store, need: set<nat>, rec: map<nat, Def>, x: nat)
    returns (defs: seq<Def>, rest: Store)
    requires EnvRel(env, t, need, rec) && x in need && x in rec && Get(env, x).Some?
    ensures GroupOk(defs) && Sub(rec, defs) && rec[x] in defs
    ensures Get(env, x) == Some(Fun(Group(defs, rest), rec[x].formals, rec[x].body))
    ensures forall y :: y in need && y in rec ==> Get(t, y).Some? && Extended(defs, rest, rec[y], Get(t, y).value)
    decreases env
  {
    hide Extended, Wrapped, GroupOk, Rel, Sub;
    match env
    case Local(y, v, inner) => defs, rest := GroupFound(inner, t, need - {y}, rec, x);
    case Group(all, inner) =>
      if x in Names(all) {
        defs, rest := all, inner;
        GroupHas(all, inner, t, need, rec, x);
      } else {
        forall y | y in need && y in rec ensures y !in Names(all) {
          if y in Names(all) { GroupHas(all, inner, t, need, rec, y); SubHas(rec, all, x); }
        }
        defs, rest := GroupFound(inner, t, need - Elems(Names(all)), rec, x);
      }
  }

  lemma GroupHas(defs: seq<Def>, rest: Store, t: Store, need: set<nat>, rec: map<nat, Def>, x: nat)
    requires EnvRel(Group(defs, rest), t, need, rec) && x in need && x in rec && x in Names(defs)
    ensures Sub(rec, defs) && rec[x] in defs && rec[x] == defs[Place(defs, x)]
    ensures forall y :: y in need && y in rec ==> Get(t, y).Some? && Extended(defs, rest, rec[y], Get(t, y).value)
  {
    hide Extended, Wrapped, GroupOk, Rel;
    assert Member(defs, rest, x, Get(t, x).value, rec);
    forall y | y in need && y in rec ensures Get(t, y).Some? && Extended(defs, rest, rec[y], Get(t, y).value) {
      SubHas(rec, defs, y);
      assert Member(defs, rest, y, Get(t, y).value, rec);
    }
  }

  lemma SubHas(rec: map<nat, Def>, defs: seq<Def>, x: nat)
    requires Sub(rec, defs) && x in rec
    ensures x in Names(defs) && rec[x] == defs[Place(defs, x)]
  {
  }

  lemma {:induction false} GetPutAll(env: Store, fs: seq<nat>, vs: seq<Item>, x: nat)
    requires |fs| == |vs|
    ensures x !in fs ==> Get(PutAll(env, fs, vs), x) == Get(env, x)
    ensures Distinct(fs) ==> forall i :: 0 <= i < |fs| && fs[i] == x ==> Get(PutAll(env, fs, vs), x) == Some(vs[i])
    decreases |fs|
  {
    if fs != [] {
      var env' := Local(fs[0], vs[0], env);
      GetPutAll(env', fs[1..], vs[1..], x);
      forall i | 0 <= i < |fs| && fs[i] == x && Distinct(fs) ensures Get(PutAll(env, fs, vs), x) == Some(vs[i]) {
        if i > 0 { assert fs[1..][i-1] == x; } else { assert x !in fs[1..]; }
      }
    }
  }

  lemma {:induction false} PutAllJoin(env: Store, a: seq<nat>, b: seq<nat>, va: seq<Item>, vb: seq<Item>)
    requires |a| == |va| && |b| == |vb|
    ensures PutAll(env, a + b, va + vb) == PutAll(PutAll(env, a, va), b, vb)
    decreases |a|
  {
    if a == [] {
      assert a + b == b && va + vb == vb;
    } else {
      assert (a + b)[1..] == a[1..] + b && (va + vb)[1..] == va[1..] + vb;
      PutAllJoin(Local(a[0], va[0], env), a[1..], b, va[1..], vb);
    }
  }

  /** Different formals can be bound in any order. */
  lemma PutAllSwap(env: Store, a: seq<nat>, b: seq<nat>, va: seq<Item>, vb: seq<Item>, x: nat)
    requires |a| == |va| && |b| == |vb| && Distinct(a) && Distinct(b) && Elems(a) !! Elems(b)
    ensures Get(PutAll(env, a + b, va + vb), x) == Get(PutAll(PutAll(env, b, vb), a, va), x)
  {
    PutAllJoin(env, a, b, va, vb);
    GetPutAll(PutAll(env, a, va), b, vb, x);
    GetPutAll(env, a, va, x);
    GetPutAll(PutAll(env, b, vb), a, va, x);
    GetPutAll(env, b, vb, x);
    if x in a {
      var i :| 0 <= i < |a| && a[i] == x;
      assert x in Elems(a) && x !in Elems(b);
    } else if x in b {
      var i :| 0 <= i < |b| && b[i] == x;
    }
  }

  lemma Swapped(env: Store, a: seq<nat>, b: seq<nat>, va: seq<Item>, vb: seq<Item>)
    requires |a| == |va| && |b| == |vb| && Distinct(a) && Distinct(b) && Elems(a) !! Elems(b)
    ensures forall x :: Get(PutAll(PutAll(env, b, vb), a, va), x) == Get(PutAll(env, a + b, va + vb), x)
  {
    forall x ensures Get(PutAll(PutAll(env, b, vb), a, va), x) == Get(PutAll(env, a + b, va + vb), x) {
      PutAllSwap(env, a, b, va, vb, x);
    }
  }

  lemma {:induction false} PutRel(env: Store, t: Store, need: set<nat>, rec: map<nat, Def>, fs: seq<nat>, vs: seq<Item>,
          ws: seq<Item>)
    requires EnvRel(env, t, need - Elems(fs), rec) && |fs| == |vs| && RelAll(vs, ws)
    requires forall x :: x in fs && x in need ==> x !in rec
    ensures EnvRel(PutAll(env, fs, vs), PutAll(t, fs, ws), need, rec)
    decreases |fs|
  {
    if fs == [] {
      assert need - Elems(fs) == need;
    } else {
      var env', t', rest := Local(fs[0], vs[0], env), Local(fs[0], ws[0], t), need - Elems(fs[1..]);
      assert rest - {fs[0]} == need - Elems(fs);
      EnvRelMove(env, t, t', need - Elems(fs), need - Elems(fs), rec, rec);
      assert EnvRel(env', t', rest, rec);
      PutRel(env', t', need, rec, fs[1..], vs[1..], ws[1..]);
    }
  }

  lemma {:induction false} VarsYield(delta: Delta, n: nat, names: seq<nat>, vs: seq<Item>, t: Store)
    requires n > 0 && |vs| == |names| && forall i :: 0 <= i < |names| ==> Get(t, names[i]) == Some(vs[i])
    ensures YieldAll(delta, n, Vars(names), t) == Some(vs)
    decreases |names|
  {
    if names == [] {
    } else {
      hide *;
      var rest, more := names[1..], vs[1..];
      forall i | 0 <= i < |rest| ensures Get(t, rest[i]) == Some(more[i]) {
        assert rest[i] == names[i+1] && more[i] == vs[i+1];
      }
      VarsFirst(delta, n, names, vs[0], t);
      VarsYield(delta, n, rest, more, t);
      ConsYield(delta, n, Var(names[0]), Vars(rest), t, vs[0], more);
      assert vs == [vs[0]] + more;
    }
  }

  lemma VarsFirst(delta: Delta, n: nat, names: seq<nat>, v: Item, t: Store)
    requires n > 0 && names != [] && Get(t, names[0]) == Some(v)
    ensures Vars(names) == [Var(names[0])] + Vars(names[1..]) && Yield(delta, n, Var(names[0]), t) == Some(v)
  {
    hide Get;
  }

  lemma ConsYield(delta: Delta, n: nat, e: Exp, es: seq<Exp>, t: Store, v: Item, vs: seq<Item>)
    requires Yield(delta, n, e, t) == Some(v) && YieldAll(delta, n, es, t) == Some(vs)
    ensures YieldAll(delta, n, [e] + es, t) == Some([v] + vs)
  {
    assert ([e] + es)[1..] == es;
  }

  lemma {:induction false} YieldAllJoin(delta: Delta, n: nat, a: seq<Exp>, b: seq<Exp>, t: Store)
    requires YieldAll(delta, n, a, t).Some? && YieldAll(delta, n, b, t).Some?
    ensures YieldAll(delta, n, a + b, t) == Some(YieldAll(delta, n, a, t).value + YieldAll(delta, n, b, t).value)
    decreases |a|
  {
    if a == [] {
      var vb := YieldAll(delta, n, b, t).value;
      assert a + b == b && [] + vb == vb;
    } else {
      assert (a + b)[1..] == a[1..] + b;
      YieldAllJoin(delta, n, a[1..], b, t);
      var v, va, vb := Yield(delta, n, a[0], t).value, YieldAll(delta, n, a[1..], t).value,
          YieldAll(delta, n, b, t).value;
      assert [v] + (va + vb) == ([v] + va) + vb;
    }
  }

  lemma {:induction false} DataRel(vs: seq<Item>, ws: seq<Item>)
    requires RelAll(vs, ws)
    ensures Data(vs) == Data(ws)
  {
    if vs != [] { DataRel(vs[1..], ws[1..]); }
  }

  lemma AlikeRel(v: Item, v': Item, w: Item, w': Item)
    requires Rel(v, w) && Rel(v', w')
    ensures Alike(v, v') == Alike(w, w')
  {
  }

  // ---- Parts of an expression ----

  /** What holds of an expression holds of a part in the same scope. */
  lemma ReadyPart(e: Exp, part: Exp, env: Store, t: Store, rec: map<nat, Def>, strict: bool)
    requires Ready(e, env, t, rec, strict) && Free(part) <= Free(e) && Safe(part, rec, strict)
    ensures Ready(part, env, t, rec, strict)
  {
    EnvRelMove(env, t, t, Need(Free(e), rec), Need(Free(part), rec), rec, rec);
  }

  ghost predicate ReadyAll(es: seq<Exp>, env: Store, t: Store, rec: map<nat, Def>, strict: bool) {
    SafeAll(es, rec, strict) && Whole(FreeAll(es), rec) && EnvRel(env, t, Need(FreeAll(es), rec), rec)
  }

  lemma ReadyParts(es: seq<Exp>, env: Store, t: Store, rec: map<nat, Def>, strict: bool)
    requires es != [] && ReadyAll(es, env, t, rec, strict)
    ensures Ready(es[0], env, t, rec, strict) && ReadyAll(es[1..], env, t, rec, strict)
  {
    EnvRelMove(env, t, t, Need(FreeAll(es), rec), Need(Free(es[0]), rec), rec, rec);
    EnvRelMove(env, t, t, Need(FreeAll(es), rec), Need(FreeAll(es[1..]), rec), rec, rec);
  }

  lemma ReadyOperands(f: Exp, es: seq<Exp>, env: Store, t: Store, rec: map<nat, Def>, strict: bool)
    requires Ready(Call(f, es), env, t, rec, strict)
    ensures Ready(f, env, t, rec, strict) && ReadyAll(es, env, t, rec, strict)
  {
    EnvRelMove(env, t, t, Need(Free(Call(f, es)), rec), Need(Free(f), rec), rec, rec);
    EnvRelMove(env, t, t, Need(Free(Call(f, es)), rec), Need(FreeAll(es), rec), rec, rec);
  }

  /** The body of a lambda, when it is entered. */
  lemma ReadyBody(fs: seq<nat>, b: Exp, env: Store, t: Store, rec: map<nat, Def>, strict: bool, vs: seq<Item>,
          ws: seq<Item>)
    requires Ready(Lambda(fs, b), env, t, rec, strict) && |fs| == |vs| && RelAll(vs, ws)
    ensures Ready(b, PutAll(env, fs, vs), PutAll(t, fs, ws), rec - Elems(fs), strict)
  {
    var inner := rec - Elems(fs);
    var need, outer := Need(Free(b), inner), Need(Free(b) - Elems(fs), rec);
    forall x | x in Free(b) && x in inner ensures x in inner[x].deps && Elems(inner[x].deps) <= inner.Keys {
      assert x in Free(Lambda(fs, b)) && Elems(rec[x].deps) !! Elems(fs);
    }
    forall x | x in need - Elems(fs) ensures x in outer {
    }
    EnvRelMove(env, t, t, outer, need - Elems(fs), rec, inner);
    PutRel(env, t, need, inner, fs, vs, ws);
  }

  /** The body of a function of a group, when it is entered with what it depends on. */
  lemma ReadyGroup(defs: seq<Def>, rest: Store, d: Def, u: Item, vs: seq<Item>, ws: seq<Item>, us: seq<Item>)
    requires GroupOk(defs) && Extended(defs, rest, d, u) && |d.formals| == |vs| && RelAll(vs, ws)
    requires PassedAll(defs, rest, d, us)
    ensures Ready(d.body, PutAll(Group(defs, rest), d.formals, vs), PutAll(u.env, d.formals + d.deps, ws + us),
                  Recs(defs), true)
  {
    NeedWithin(defs, d);
    assert DefOk(d, defs);
    EnterGroup(defs, rest, d, u, vs, ws, us);
  }

  lemma EnterGroup(defs: seq<Def>, rest: Store, d: Def, u: Item, vs: seq<Item>, ws: seq<Item>, us: seq<Item>)
    requires GroupOk(defs) && Extended(defs, rest, d, u) && |d.formals| == |vs| && RelAll(vs, ws)
    requires PassedAll(defs, rest, d, us) && d in defs && DefOk(d, defs)
    ensures EnvRel(PutAll(Group(defs, rest), d.formals, vs), PutAll(u.env, d.formals + d.deps, ws + us),
                   Need(Free(d.body), Recs(defs)), Recs(defs))
  {
    var fs, deps, rec := d.formals, d.deps, Recs(defs);
    var need := Need(Free(d.body), rec);
    NeedWithin(defs, d);
    GroupPassed(defs, rest, d, u, us);
    hide EnvRel, Rel, Extended, GroupOk, Carry, Safe, Need, Sub, Whole, Free;
    var env, t1 := Group(defs, rest), PutAll(u.env, deps, us);
    forall x | x in fs && x in need ensures x !in rec {
      assert x in Elems(fs) && x !in Elems(deps);
    }
    hide Recs, DefOk;
    PutRel(env, t1, need, rec, fs, vs, ws);
    Swapped(u.env, fs, deps, ws, us);
    EnvRelMove(PutAll(env, fs, vs), PutAll(t1, fs, ws), PutAll(u.env, fs + deps, ws + us), need, need, rec, rec);
  }

  /** us are the functions that d depends on, in order. */
  ghost predicate PassedAll(defs: seq<Def>, rest: Store, d: Def, us: seq<Item>) {
    && |us| == |d.deps|
    && forall i :: 0 <= i < |us| ==> PassedAs(defs, rest, d.deps[i], us[i])
  }

  ghost predicate PassedAs(defs: seq<Def>, rest: Store, y: nat, u: Item) {
    y in Names(defs) && Extended(defs, rest, defs[Place(defs, y)], u)
  }

  /** What is passed is what the body needs of the group. */
  lemma GroupPassed(defs: seq<Def>, rest: Store, d: Def, u: Item, us: seq<Item>)
    requires GroupOk(defs) && Extended(defs, rest, d, u) && PassedAll(defs, rest, d, us)
    ensures EnvRel(Group(defs, rest), PutAll(u.env, d.deps, us), Need(Free(d.body), Recs(defs)) - Elems(d.formals),
                   Recs(defs))
  {
    assert DefOk(d, defs);
    var fs, names, rec := Elems(d.formals), Elems(Names(defs)), Recs(defs);
    var need, t1 := Need(Free(d.body), rec) - fs, PutAll(u.env, d.deps, us);
    NeedWithin(defs, d);
    hide Need, Carry, Rel, Wrapped, Safe, GroupOk;
    forall x | x in need - names ensures Get(t1, x) == Get(u.env, x) && x !in rec {
      assert x !in Elems(d.deps);
      GetPutAll(u.env, d.deps, us, x);
    }
    EnvRelMove(rest, u.env, t1, Free(d.body) - fs - names, need - names, map[], rec);
    forall x | x in need && x in Names(defs) ensures Get(t1, x).Some? && Member(defs, rest, x, Get(t1, x).value, rec) {
      MemberPassed(defs, rest, d, u.env, us, x);
    }
  }

  lemma MemberPassed(defs: seq<Def>, rest: Store, d: Def, t: Store, us: seq<Item>, x: nat)
    requires PassedAll(defs, rest, d, us) && Distinct(d.deps) && x in d.deps && Sub(Recs(defs), defs)
    ensures Get(PutAll(t, d.deps, us), x).Some? && x in Names(defs)
    ensures Member(defs, rest, x, Get(PutAll(t, d.deps, us), x).value, Recs(defs))
  {
    hide Extended, Wrapped, Sub;
    var i :| 0 <= i < |d.deps| && d.deps[i] == x;
    GetPutAll(t, d.deps, us, x);
    assert PassedAs(defs, rest, x, us[i]);
  }

  /** The names of the group that a function needs are those it depends on. */
  lemma NeedWithin(defs: seq<Def>, d: Def)
    requires GroupOk(defs) && d in defs
    ensures var rec := Recs(defs);
            && Whole(Free(d.body), rec) && Sub(rec, defs)
            && forall x :: x in Need(Free(d.body), rec) ==> if x in Names(defs) then x in d.deps else x in Free(d.body)
  {
    var rec := Recs(defs);
    assert DefOk(d, defs);
    forall x | x in Free(d.body) && x in rec
      ensures x in rec[x].deps && Elems(rec[x].deps) <= Elems(d.deps) * rec.Keys
    {
      DepsWithin(defs, d, x);
    }
    hide GroupOk, DefOk, Safe, Carry, Place;
    forall x | x in Need(Free(d.body), rec)
      ensures if x in Names(defs) then x in d.deps else x in Free(d.body)
    {
      if x !in Free(d.body) {
        var y :| y in Free(d.body) && y in rec && x in rec[y].deps;
        assert x in Elems(rec[y].deps);
      }
    }
  }

  lemma DepsWithin(defs: seq<Def>, d: Def, x: nat)
    requires GroupOk(defs) && d in defs && x in Free(d.body) && x in Names(defs)
    ensures var e := Recs(defs)[x]; x in e.deps && Elems(e.deps) <= Elems(d.deps) * Recs(defs).Keys
  {
    var e := defs[Place(defs, x)];
    assert e in defs && e.name == x && DefOk(d, defs) && DefOk(e, defs);
  }

  // ---- Rewritten code does the same ----

  /** An expression that gives a value gives, once it is rewritten, what the value has become. */
  lemma {:induction false} Runs(delta: Delta, n: nat, e: Exp, env: Store, t: Store, rec: map<nat, Def>, strict: bool)
    returns (m: nat, w: Item)
    requires Yield(delta, n, e, env).Some? && Ready(e, env, t, rec, strict) && Carry(e, rec, strict).Some?
    ensures Yield(delta, m, Carry(e, rec, strict).value, t) == Some(w) && Rel(Yield(delta, n, e, env).value, w)
    decreases n, 1, 0
  {
    hide EnvRel, Ready, Rel, Carry, Safe;
    match e
    case Value(c) => m, w := 1, Datum(c); ValueRuns(c, rec, strict);
    case Var(x) => m, w := VarRuns(delta, n, x, env, t, rec, strict);
    case Lambda(fs, b) => m, w := LambdaRuns(delta, n, fs, b, env, t, rec, strict);
    case Ifeq(a, b, y, no) => m, w := IfeqRuns(delta, n, a, b, y, no, env, t, rec, strict);
    case Call(f, es) =>
      ReadyOperands(f, es, env, t, rec, strict);
      if f.Var? && f.name in rec {
        m, w := GroupCallRuns(delta, n, f.name, es, env, t, rec, strict);
      } else {
        m, w := CallRuns(delta, n, f, es, env, t, rec, strict);
      }
  }

  lemma ValueRuns(c: Const, rec: map<nat, Def>, strict: bool)
    ensures Carry(Value(c), rec, strict) == Some(Value(c)) && Rel(Datum(c), Datum(c))
  {
  }

  lemma VarRuns(delta: Delta, n: nat, x: nat, env: Store, t: Store, rec: map<nat, Def>, strict: bool)
    returns (m: nat, w: Item)
    requires Yield(delta, n, Var(x), env).Some? && Ready(Var(x), env, t, rec, strict)
    ensures Carry(Var(x), rec, strict).Some?
    ensures Yield(delta, m, Carry(Var(x), rec, strict).value, t) == Some(w)
    ensures Rel(Yield(delta, n, Var(x), env).value, w)
  {
    m := 1;
    if x in rec {
      var d := rec[x];
      w := Fun(t, d.formals, Call(Var(d.name), Vars(d.formals + d.deps)));
      var defs, rest, us := Found(Var(x), x, env, t, rec, strict);
      hide EnvRel, Rel, Ready, Extended, Sub, GroupOk;
      WrapperRel(defs, rest, d, us, t);
    } else {
      GetPlain(env, t, Need({x}, rec), rec, x);
      hide EnvRel, Rel, Ready;
      w := Get(t, x).value;
    }
  }

  /** A function that is rewritten, its group, and what is passed to it: all that it depends on, in order. */
  lemma Found(e: Exp, x: nat, env: Store, t: Store, rec: map<nat, Def>, strict: bool)
    returns (defs: seq<Def>, rest: Store, us: seq<Item>)
    requires Ready(e, env, t, rec, strict) && x in Free(e) && x in rec && Get(env, x).Some?
    ensures GroupOk(defs) && rec[x] in defs
    ensures Get(env, x) == Some(Fun(Group(defs, rest), rec[x].formals, rec[x].body))
    ensures Get(t, x).Some? && Extended(defs, rest, rec[x], Get(t, x).value)
    ensures |us| == |rec[x].deps| && PassedAll(defs, rest, rec[x], us)
    ensures forall i :: 0 <= i < |us| ==> Get(t, rec[x].deps[i]) == Some(us[i])
  {
    defs, rest := GroupFound(env, t, Need(Free(e), rec), rec, x);
    hide EnvRel, Extended, GroupOk;
    us := Passed(Free(e), rec, x, defs, rest, t);
  }

  lemma WrapperRel(defs: seq<Def>, rest: Store, d: Def, us: seq<Item>, t: Store)
    requires GroupOk(defs) && d in defs && PassedAll(defs, rest, d, us)
    requires forall i :: 0 <= i < |us| ==> Get(t, d.deps[i]) == Some(us[i])
    ensures Rel(Fun(Group(defs, rest), d.formals, d.body),
                Fun(t, d.formals, Call(Var(d.name), Vars(d.formals + d.deps))))
  {
    var w := Fun(t, d.formals, Call(Var(d.name), Vars(d.formals + d.deps)));
    forall y | y in d.deps
      ensures y in Names(defs) && Get(t, y).Some? && Extended(defs, rest, defs[Place(defs, y)], Get(t, y).value)
    {
      var i :| 0 <= i < |us| && d.deps[i] == y;
      assert PassedAs(defs, rest, y, us[i]);
    }
    assert Wraps(Group(defs, rest), d.formals, d.body, d) && Wrapped(defs, rest, d, w);
  }

  lemma LambdaRuns(delta: Delta, n: nat, fs: seq<nat>, b: Exp, env: Store, t: Store, rec: map<nat, Def>, strict: bool)
    returns (m: nat, w: Item)
    requires n > 0 && Ready(Lambda(fs, b), env, t, rec, strict) && Carry(Lambda(fs, b), rec, strict).Some?
    ensures Yield(delta, m, Carry(Lambda(fs, b), rec, strict).value, t) == Some(w)
    ensures Rel(Yield(delta, n, Lambda(fs, b), env).value, w)
  {
    m, w := 1, Fun(t, fs, Carry(Lambda(fs, b), rec, strict).value.body);
    assert Rewritten(env, fs, b, w, rec, strict);
  }

  lemma {:induction false} IfeqRuns(delta: Delta, n: nat, a: Exp, b: Exp, y: Exp, no: Exp, env: Store, t: Store,
          rec: map<nat, Def>, strict: bool)
    returns (m: nat, w: Item)
    requires Yield(delta, n, Ifeq(a, b, y, no), env).Some? && Ready(Ifeq(a, b, y, no), env, t, rec, strict)
    requires Carry(Ifeq(a, b, y, no), rec, strict).Some?
    ensures Yield(delta, m, Carry(Ifeq(a, b, y, no), rec, strict).value, t) == Some(w)
    ensures Rel(Yield(delta, n, Ifeq(a, b, y, no), env).value, w)
    decreases n, 0, 0
  {
    hide EnvRel, Ready, Rel, Safe, Carry, Yield, Alike, Get;
    IfeqParts(a, b, y, no, env, t, rec, strict);
    CarryIfeq(a, b, y, no, rec, strict);
    var same := IfeqSplit(delta, n, a, b, y, no, env);
    var va, vb := Yield(delta, n - 1, a, env).value, Yield(delta, n - 1, b, env).value;
    var m1, wa := Runs(delta, n - 1, a, env, t, rec, strict);
    var m2, wb := Runs(delta, n - 1, b, env, t, rec, strict);
    var m3;
    AlikeRel(va, vb, wa, wb);
    m3, w := Runs(delta, n - 1, if same then y else no, env, t, rec, strict);
    m := m1 + m2 + m3 + 1;
    IfeqYields(delta, m1, m2, m3, Carry(Ifeq(a, b, y, no), rec, strict).value, t, same);
  }

  lemma IfeqSplit(delta: Delta, n: nat, a: Exp, b: Exp, y: Exp, no: Exp, env: Store) returns (same: bool)
    requires Yield(delta, n, Ifeq(a, b, y, no), env).Some?
    ensures n > 0 && Yield(delta, n - 1, a, env).Some? && Yield(delta, n - 1, b, env).Some?
    ensures Alike(Yield(delta, n - 1, a, env).value, Yield(delta, n - 1, b, env).value) == Some(same)
    ensures Yield(delta, n, Ifeq(a, b, y, no), env) == Yield(delta, n - 1, if same then y else no, env)
  {
    same := Alike(Yield(delta, n - 1, a, env).value, Yield(delta, n - 1, b, env).value).value;
  }

  lemma CallSplit(delta: Delta, n: nat, f: Exp, es: seq<Exp>, env: Store)
    requires Yield(delta, n, Call(f, es), env).Some?
    ensures n > 0 && Yield(delta, n - 1, f, env).Some? && YieldAll(delta, n - 1, es, env).Some?
    ensures Yield(delta, n, Call(f, es), env)
         == Apply(delta, n - 1, Yield(delta, n - 1, f, env).value, YieldAll(delta, n - 1, es, env).value)
  {
  }

  lemma VarSplit(delta: Delta, n: nat, x: nat, env: Store)
    requires Yield(delta, n, Var(x), env).Some?
    ensures Get(env, x).Some? && Yield(delta, n, Var(x), env) == Get(env, x)
  {
  }

  lemma CarryIfeq(a: Exp, b: Exp, y: Exp, no: Exp, rec: map<nat, Def>, strict: bool)
    requires Carry(Ifeq(a, b, y, no), rec, strict).Some?
    ensures Carry(a, rec, strict).Some? && Carry(b, rec, strict).Some?
    ensures Carry(y, rec, strict).Some? && Carry(no, rec, strict).Some?
    ensures Carry(Ifeq(a, b, y, no), rec, strict).value
         == Ifeq(Carry(a, rec, strict).value, Carry(b, rec, strict).value, Carry(y, rec, strict).value,
                 Carry(no, rec, strict).value)
  {
  }

  lemma IfeqYields(delta: Delta, m1: nat, m2: nat, m3: nat, e: Exp, t: Store, same: bool)
    requires e.Ifeq? && Yield(delta, m1, e.a, t).Some? && Yield(delta, m2, e.b, t).Some?
    requires Alike(Yield(delta, m1, e.a, t).value, Yield(delta, m2, e.b, t).value) == Some(same)
    requires Yield(delta, m3, if same then e.yes else e.no, t).Some?
    ensures Yield(delta, m1 + m2 + m3 + 1, e, t) == Yield(delta, m3, if same then e.yes else e.no, t)
  {
    var m := m1 + m2 + m3;
    YieldMore(delta, m1, m, e.a, t);
    YieldMore(delta, m2, m, e.b, t);
    YieldMore(delta, m3, m, if same then e.yes else e.no, t);
  }

  lemma IfeqParts(a: Exp, b: Exp, y: Exp, no: Exp, env: Store, t: Store, rec: map<nat, Def>, strict: bool)
    requires Ready(Ifeq(a, b, y, no), env, t, rec, strict)
    ensures Ready(a, env, t, rec, strict) && Ready(b, env, t, rec, strict)
    ensures Ready(y, env, t, rec, strict) && Ready(no, env, t, rec, strict)
  {
    var e := Ifeq(a, b, y, no);
    ReadyPart(e, a, env, t, rec, strict);
    ReadyPart(e, b, env, t, rec, strict);
    ReadyPart(e, y, env, t, rec, strict);
    ReadyPart(e, no, env, t, rec, strict);
  }

  lemma {:induction false} RunsAll(delta: Delta, n: nat, es: seq<Exp>, env: Store, t: Store, rec: map<nat, Def>,
          strict: bool)
    returns (m: nat, ws: seq<Item>)
    requires YieldAll(delta, n, es, env).Some? && ReadyAll(es, env, t, rec, strict) && CarryAll(es, rec, strict).Some?
    ensures YieldAll(delta, m, CarryAll(es, rec, strict).value, t) == Some(ws)
    ensures RelAll(YieldAll(delta, n, es, env).value, ws)
    decreases n, 2, |es|
  {
    hide EnvRel, Ready, Rel, Safe, Carry;
    if es == [] {
      m, ws := 0, [];
    } else {
      ReadyParts(es, env, t, rec, strict);
      var m1, w1 := Runs(delta, n, es[0], env, t, rec, strict);
      var m2, rest := RunsAll(delta, n, es[1..], env, t, rec, strict);
      m, ws := m1 + m2, [w1] + rest;
      var es' := CarryAll(es[1..], rec, strict).value;
      YieldMore(delta, m1, m, Carry(es[0], rec, strict).value, t);
      YieldAllMore(delta, m2, m, es', t);
      assert ([Carry(es[0], rec, strict).value] + es')[1..] == es';
      RelCons(Yield(delta, n, es[0], env).value, w1, YieldAll(delta, n, es[1..], env).value, rest);
    }
  }

  lemma RelCons(v: Item, w: Item, vs: seq<Item>, ws: seq<Item>)
    requires Rel(v, w) && RelAll(vs, ws)
    ensures RelAll([v] + vs, [w] + ws)
  {
  }

  /** Any other call. */
  lemma {:induction false} CallRuns(delta: Delta, n: nat, f: Exp, es: seq<Exp>, env: Store, t: Store,
          rec: map<nat, Def>, strict: bool)
    returns (m: nat, w: Item)
    requires Yield(delta, n, Call(f, es), env).Some? && !(f.Var? && f.name in rec)
    requires Ready(f, env, t, rec, strict) && ReadyAll(es, env, t, rec, strict)
    requires Carry(Call(f, es), rec, strict).Some?
    ensures Yield(delta, m, Carry(Call(f, es), rec, strict).value, t) == Some(w)
    ensures Rel(Yield(delta, n, Call(f, es), env).value, w)
    decreases n, 0, 0
  {
    hide EnvRel, Ready, Rel, Safe;
    var vf, vs := Yield(delta, n - 1, f, env).value, YieldAll(delta, n - 1, es, env).value;
    var m1, wf := Runs(delta, n - 1, f, env, t, rec, strict);
    var m2, ws := RunsAll(delta, n - 1, es, env, t, rec, strict);
    var m3;
    m3, w := Applied(delta, n - 1, vf, vs, wf, ws);
    m := m1 + m2 + m3 + 1;
    YieldMore(delta, m1, m - 1, Carry(f, rec, strict).value, t);
    YieldAllMore(delta, m2, m - 1, CarryAll(es, rec, strict).value, t);
    ApplyMore(delta, m3, m - 1, wf, ws);
  }

  /** A call of a function of the group is rewritten to pass what it depends on. */
  lemma {:induction false} GroupCallRuns(delta: Delta, n: nat, x: nat, es: seq<Exp>, env: Store, t: Store,
          rec: map<nat, Def>, strict: bool)
    returns (m: nat, w: Item)
    requires Yield(delta, n, Call(Var(x), es), env).Some? && x in rec
    requires Ready(Call(Var(x), es), env, t, rec, strict) && ReadyAll(es, env, t, rec, strict)
    requires Carry(Call(Var(x), es), rec, strict).Some?
    ensures Yield(delta, m, Carry(Call(Var(x), es), rec, strict).value, t) == Some(w)
    ensures Rel(Yield(delta, n, Call(Var(x), es), env).value, w)
    decreases n, 0, 0
  {
    hide *;
    ReadySafe(Call(Var(x), es), env, t, rec, strict);
    CallSplit(delta, n, Var(x), es, env);
    VarSplit(delta, n - 1, x, env);
    var d, vs := rec[x], YieldAll(delta, n - 1, es, env).value;
    CarryCall(x, es, rec, strict);
    FreeOperator(x, es);
    var defs, rest, us := Found(Call(Var(x), es), x, env, t, rec, strict);
    var es' := CarryAll(es, rec, strict).value;
    var m1, ws := RunsAll(delta, n - 1, es, env, t, rec, strict);
    var m2;
    m2, w := ExtendedApplied(delta, n - 1, defs, rest, d, Get(t, x).value, vs, ws, us);
    m := m1 + m2 + 2;
    LongerCall(delta, m1, m2, x, es', d.deps, t, ws, us);
  }

  lemma ReadySafe(e: Exp, env: Store, t: Store, rec: map<nat, Def>, strict: bool)
    requires Ready(e, env, t, rec, strict)
    ensures Safe(e, rec, strict)
  {
  }

  lemma FreeOperator(x: nat, es: seq<Exp>)
    ensures x in Free(Call(Var(x), es))
  {
    assert Free(Var(x)) == {x};
  }

  /** Binding the formals makes no difference to the operands when none of them is used there. */
  lemma CarryCall(x: nat, es: seq<Exp>, rec: map<nat, Def>, strict: bool)
    requires x in rec && Safe(Call(Var(x), es), rec, strict) && Carry(Call(Var(x), es), rec, strict).Some?
    ensures CarryAll(es, rec, strict).Some?
    ensures Carry(Call(Var(x), es), rec, strict)
         == Some(Call(Var(x), CarryAll(es, rec, strict).value + Vars(rec[x].deps)))
  {
    if strict { CarryAllAgree(es, rec - Elems(rec[x].formals), rec, strict); }
  }

  /** A call with further operands. */
  lemma LongerCall(delta: Delta, m1: nat, m2: nat, x: nat, es: seq<Exp>, deps: seq<nat>, t: Store, ws: seq<Item>,
          us: seq<Item>)
    requires YieldAll(delta, m1, es, t) == Some(ws) && |us| == |deps|
    requires forall i :: 0 <= i < |us| ==> Get(t, deps[i]) == Some(us[i])
    requires Get(t, x).Some? && Apply(delta, m2, Get(t, x).value, ws + us).Some?
    ensures Yield(delta, m1 + m2 + 2, Call(Var(x), es + Vars(deps)), t) == Apply(delta, m2, Get(t, x).value, ws + us)
  {
    var m := m1 + m2 + 1;
    VarsYield(delta, m, deps, us, t);
    YieldAllMore(delta, m1, m, es, t);
    YieldAllJoin(delta, m, es, Vars(deps), t);
    ApplyMore(delta, m2, m, Get(t, x).value, ws + us);
    hide YieldAll, Apply, Get, Vars;
    assert Yield(delta, m, Var(x), t) == Get(t, x);
  }

  lemma Passed(names: set<nat>, rec: map<nat, Def>, x: nat, defs: seq<Def>, rest: Store, t: Store)
    returns (us: seq<Item>)
    requires x in names && x in rec && Whole(names, rec) && Sub(rec, defs)
    requires forall y :: y in Need(names, rec) && y in rec ==>
             Get(t, y).Some? && Extended(defs, rest, rec[y], Get(t, y).value)
    ensures PassedAll(defs, rest, rec[x], us)
    ensures forall i :: 0 <= i < |us| ==> Get(t, rec[x].deps[i]) == Some(us[i])
  {
    hide Extended, Sub;
    var deps := rec[x].deps;
    forall y | y in deps ensures Get(t, y).Some? && PassedAs(defs, rest, y, Get(t, y).value) {
      assert y in Elems(deps) && y in rec && y in Need(names, rec);
      SubHas(rec, defs, y);
    }
    us := seq(|deps|, i requires 0 <= i < |deps| => Get(t, deps[i]).value);
  }

  lemma {:induction false} ExtendedApplied(delta: Delta, n: nat, defs: seq<Def>, rest: Store, d: Def, u: Item,
          vs: seq<Item>, ws: seq<Item>, us: seq<Item>)
    returns (m: nat, w: Item)
    requires GroupOk(defs) && Extended(defs, rest, d, u) && RelAll(vs, ws) && PassedAll(defs, rest, d, us)
    requires Apply(delta, n, Fun(Group(defs, rest), d.formals, d.body), vs).Some?
    ensures Apply(delta, m, u, ws + us) == Some(w)
    ensures Rel(Apply(delta, n, Fun(Group(defs, rest), d.formals, d.body), vs).value, w)
    decreases n, 3, 0
  {
    ReadyGroup(defs, rest, d, u, vs, ws, us);
    hide EnvRel, Ready, Rel, Safe, Carry;
    m, w := Runs(delta, n, d.body, PutAll(Group(defs, rest), d.formals, vs),
                 PutAll(u.env, d.formals + d.deps, ws + us), Recs(defs), true);
  }

  /** What values have become is applied alike. */
  lemma {:induction false} Applied(delta: Delta, n: nat, f: Item, vs: seq<Item>, g: Item, ws: seq<Item>)
    returns (m: nat, w: Item)
    requires Rel(f, g) && RelAll(vs, ws) && Apply(delta, n, f, vs).Some?
    ensures Apply(delta, m, g, ws) == Some(w) && Rel(Apply(delta, n, f, vs).value, w)
    decreases n, 5, 0
  {
    match f
    case Datum(_) =>
      DataRel(vs, ws);
      m, w := n, Apply(delta, n, f, vs).value;
    case Fun(env, fs, b) =>
      if rec, strict :| Rewritten(env, fs, b, g, rec, strict) {
        ReadyBody(fs, b, env, g.env, rec, strict, vs, ws);
        hide EnvRel, Ready, Rel, Safe;
        m, w := Runs(delta, n, b, PutAll(env, fs, vs), PutAll(g.env, fs, ws), rec - Elems(fs), strict);
      } else {
        var d :| Wraps(env, fs, b, d) && Wrapped(env.defs, env.rest, d, g);
        m, w := WrapperApplied(delta, n, env.defs, env.rest, d, vs, g, ws);
      }
  }

  /** A wrapper passes its operands on, with what the function depends on. */
  lemma {:induction false} WrapperApplied(delta: Delta, n: nat, defs: seq<Def>, rest: Store, d: Def, vs: seq<Item>,
          g: Item, ws: seq<Item>)
    returns (m: nat, w: Item)
    requires GroupOk(defs) && d in defs && Wrapped(defs, rest, d, g) && RelAll(vs, ws)
    requires Apply(delta, n, Fun(Group(defs, rest), d.formals, d.body), vs).Some?
    ensures Apply(delta, m, g, ws) == Some(w)
    ensures Rel(Apply(delta, n, Fun(Group(defs, rest), d.formals, d.body), vs).value, w)
    decreases n, 4, 0
  {
    var us := WrappedPasses(defs, rest, d, g, ws);
    var u := Get(g.env, d.name).value;
    hide EnvRel, Rel, Safe, Carry, Extended, Wrapped, GroupOk;
    var m1;
    m1, w := ExtendedApplied(delta, n, defs, rest, d, u, vs, ws, us);
    m := m1 + 2;
    var names, t := d.formals + d.deps, PutAll(g.env, d.formals, ws);
    VarsYield(delta, m - 1, names, ws + us, t);
    ApplyMore(delta, m1, m - 1, u, ws + us);
    assert Yield(delta, m, g.body, t) == Some(w);
  }

  lemma WrappedPasses(defs: seq<Def>, rest: Store, d: Def, g: Item, ws: seq<Item>) returns (us: seq<Item>)
    requires GroupOk(defs) && d in defs && Wrapped(defs, rest, d, g) && |ws| == |d.formals|
    ensures g.Fun? && g.formals == d.formals && g.body == Call(Var(d.name), Vars(d.formals + d.deps))
    ensures PassedAll(defs, rest, d, us)
    ensures var t, names := PutAll(g.env, d.formals, ws), d.formals + d.deps;
            && Get(t, d.name) == Get(g.env, d.name)
            && forall i :: 0 <= i < |names| ==> Get(t, names[i]) == Some((ws + us)[i])
    ensures Get(g.env, d.name).Some? && Extended(defs, rest, d, Get(g.env, d.name).value)
  {
    assert DefOk(d, defs) && d.name in Elems(d.deps);
    PlaceOnly(defs, d);
    hide Extended, GroupOk, Carry, Safe;
    us := seq(|d.deps|, i requires 0 <= i < |d.deps| => Get(g.env, d.deps[i]).value);
    GetPutAll(g.env, d.formals, ws, d.name);
    PassThrough(g.env, d.formals, ws, d.deps, us);
  }

  lemma PassThrough(env: Store, fs: seq<nat>, ws: seq<Item>, deps: seq<nat>, us: seq<Item>)
    requires |ws| == |fs| && Distinct(fs) && Elems(fs) !! Elems(deps) && |us| == |deps|
    requires forall i :: 0 <= i < |deps| ==> Get(env, deps[i]) == Some(us[i])
    ensures forall i :: 0 <= i < |fs + deps| ==> Get(PutAll(env, fs, ws), (fs + deps)[i]) == Some((ws + us)[i])
  {
    forall i | 0 <= i < |fs + deps| ensures Get(PutAll(env, fs, ws), (fs + deps)[i]) == Some((ws + us)[i]) {
      var x := (fs + deps)[i];
      GetPutAll(env, fs, ws, x);
      if i >= |fs| { assert x == deps[i - |fs|] && x in Elems(deps) && (ws + us)[i] == us[i - |fs|]; }
    }
  }
}
