/** Letrec elimination: the bindings that are made for a group of functions. */
module Groups {
  import opened Lists
  import opened Wrappers
  import opened Ast
  import opened Recursion

  // ---- Binding a group ----

  function Bindings(names: seq<nat>, values: seq<Exp>, body: Exp): Exp {
    Call(Lambda(names, body), values)
  }

  /** handle-recursion: the functions of a group, with further formals for what they depend on. */
  function Extensions(defs: seq<Def>, rec: map<nat, Def>): (r: Option<seq<Exp>>)
    ensures r.Some? ==> |r.value| == |defs|
  {
    if defs == [] then Some([])
    else
      var b :- Carry(defs[0].body, rec, true);
      var more :- Extensions(defs[1..], rec);
      Some([Lambda(defs[0].formals + defs[0].deps, b)] + more)
  }

  function AllWrappers(defs: seq<Def>): (r: seq<Exp>)
    ensures |r| == |defs| && forall i :: 0 <= i < |r| ==> r[i] == Wrapper(defs[i])
  {
    if defs == [] then [] else [Wrapper(defs[0])] + AllWrappers(defs[1..])
  }

  /** Mutual recursion: the names are bound to the longer functions, and inside of that to wrappers. */
  function Mutual(defs: seq<Def>, body: Exp): Option<Exp> {
    var longer :- Extensions(defs, Recs(defs));
    Some(Bindings(Names(defs), longer, Bindings(Names(defs), AllWrappers(defs), body)))
  }

  /** carry-simple-recursion for one function after the other. */
  function CarryEach(e: Exp, defs: seq<Def>): Option<Exp>
    decreases |defs|
  {
    if defs == [] then Some(e)
    else
      var e' :- Carry(e, map[defs[0].name := defs[0]], false);
      CarryEach(e', defs[1..])
  }

  /** Simple recursion: the names are bound to the longer functions, and the body is rewritten too. */
  function Simple(defs: seq<Def>, body: Exp): Option<Exp> {
    var longer :- Extensions(defs, Recs(defs));
    var body' :- CarryEach(body, defs);
    Some(Bindings(Names(defs), longer, body'))
  }

  /** The names from outside that a group and its body use. */
  ghost function Outer(defs: seq<Def>, body: Exp): set<nat> {
    Free(body) - Elems(Names(defs))
    + set d, x | d in defs && x in Free(d.body) - Elems(d.formals) - Elems(Names(defs)) :: x
  }

  lemma {:induction false} ExtensionsIs(defs: seq<Def>, rec: map<nat, Def>)
    requires forall d :: d in defs ==> Carry(d.body, rec, true).Some?
    ensures Extensions(defs, rec).Some?
    ensures forall i :: 0 <= i < |defs| ==>
              var d := defs[i];
              Extensions(defs, rec).value[i] == Lambda(d.formals + d.deps, Carry(d.body, rec, true).value)
  {
    if defs != [] { ExtensionsIs(defs[1..], rec); }
  }

  lemma {:induction false} LambdasYield(delta: Delta, n: nat, es: seq<Exp>, t: Store) returns (us: seq<Item>)
    requires n > 0 && forall e :: e in es ==> e.Lambda?
    ensures YieldAll(delta, n, es, t) == Some(us)
    ensures |us| == |es| && forall i :: 0 <= i < |us| ==> us[i] == Fun(t, es[i].formals, es[i].body)
    decreases |es|
  {
    if es == [] {
      us := [];
    } else {
      var rest := LambdasYield(delta, n, es[1..], t);
      us := [Fun(t, es[0].formals, es[0].body)] + rest;
    }
  }

  lemma BindingsYield(delta: Delta, m: nat, names: seq<nat>, values: seq<Exp>, body: Exp, t: Store, us: seq<Item>)
    requires |names| == |values| == |us| && YieldAll(delta, 1, values, t) == Some(us)
    requires Yield(delta, m, body, PutAll(t, names, us)).Some?
    ensures Yield(delta, m + 2, Bindings(names, values, body), t) == Yield(delta, m, body, PutAll(t, names, us))
  {
    YieldAllMore(delta, 1, m + 1, values, t);
    YieldMore(delta, m, m + 1, body, PutAll(t, names, us));
  }

  /** The longer functions, bound to the names of the group. */
  lemma GroupBound(delta: Delta, defs: seq<Def>, body: Exp, env: Store, t: Store) returns (us: seq<Item>)
    requires GroupOk(defs) && EnvRel(env, t, Outer(defs, body), map[])
    ensures Extensions(defs, Recs(defs)).Some? && |us| == |defs|
    ensures YieldAll(delta, 1, Extensions(defs, Recs(defs)).value, t) == Some(us)
    ensures forall i :: 0 <= i < |defs| ==> Extended(defs, env, defs[i], us[i])
  {
    var rec := Recs(defs);
    forall d | d in defs ensures Carry(d.body, rec, true).Some? {
      assert DefOk(d, defs);
      CarriedExactly(d.body, rec);
    }
    ExtensionsIs(defs, rec);
    us := LambdasYield(delta, 1, Extensions(defs, rec).value, t);
    hide EnvRel, Carry, Safe, GroupOk;
    forall i | 0 <= i < |defs| ensures Extended(defs, env, defs[i], us[i]) {
      var d := defs[i];
      EnvRelMove(env, t, t, Outer(defs, body), Free(d.body) - Elems(d.formals) - Elems(Names(defs)), map[], map[]);
    }
  }

  lemma GetBound(t: Store, defs: seq<Def>, us: seq<Item>, x: nat)
    requires |us| == |defs| && Distinct(Names(defs))
    ensures x in Names(defs) ==> Get(PutAll(t, Names(defs), us), x) == Some(us[Place(defs, x)])
    ensures x !in Names(defs) ==> Get(PutAll(t, Names(defs), us), x) == Get(t, x)
  {
    GetPutAll(t, Names(defs), us, x);
    if x in Names(defs) { assert Names(defs)[Place(defs, x)] == x; }
  }

  /** Under the bindings of a group, what its body needs is there: by names in rec the longer functions, by others
      wrappers. */
  lemma GroupEnv(defs: seq<Def>, env: Store, t: Store, t': Store, ws: seq<Item>, need: set<nat>, rec: map<nat, Def>)
    requires GroupOk(defs) && |ws| == |defs| && EnvRel(env, t, need - Elems(Names(defs)), map[])
    requires forall x :: x in need && x !in Names(defs) ==> Get(t', x) == Get(t, x)
    requires rec == map[] || rec == Recs(defs)
    requires forall x :: x in Names(defs) ==> Member(defs, env, x, ws[Place(defs, x)], rec)
    ensures EnvRel(Group(defs, env), PutAll(t', Names(defs), ws), need, rec)
  {
    hide Member, Rel;
    var t'' := PutAll(t', Names(defs), ws);
    assert Distinct(Names(defs));
    forall x
      ensures x in Names(defs) ==> Get(t'', x) == Some(ws[Place(defs, x)])
      ensures x !in Names(defs) ==> Get(t'', x) == Get(t', x)
    {
      GetBound(t', defs, ws, x);
    }
    hide GroupOk;
    var outer := need - Elems(Names(defs));
    EnvRelMove(env, t, t'', outer, outer, map[], rec);
  }

  lemma {:induction false} SafeNone(e: Exp, strict: bool)
    ensures Safe(e, map[], strict)
  {
    var none: map<nat, Def> := map[];
    match e
    case Value(_) =>
    case Var(_) =>
    case Lambda(fs, b) =>
      assert none - Elems(fs) == none;
      SafeNone(b, strict);
    case Ifeq(a, b, y, n) =>
      SafeNone(a, strict);
      SafeNone(b, strict);
      SafeNone(y, strict);
      SafeNone(n, strict);
    case Call(f, es) =>
      SafeNone(f, strict);
      SafeAllNone(es, strict);
  }

  lemma {:induction false} SafeAllNone(es: seq<Exp>, strict: bool)
    ensures SafeAll(es, map[], strict)
  {
    if es != [] {
      SafeNone(es[0], strict);
      SafeAllNone(es[1..], strict);
    }
  }

  lemma MemberWrapped(defs: seq<Def>, rest: Store, t: Store, us: seq<Item>, x: nat)
    requires GroupOk(defs) && |us| == |defs| && (forall i :: 0 <= i < |defs| ==> Extended(defs, rest, defs[i], us[i]))
    requires x in Names(defs)
    ensures var d := defs[Place(defs, x)];
            Member(defs, rest, x,
                   Fun(PutAll(t, Names(defs), us), d.formals, Call(Var(d.name), Vars(d.formals + d.deps))), map[])
  {
    var d, t1 := defs[Place(defs, x)], PutAll(t, Names(defs), us);
    assert DefOk(d, defs) && Distinct(Names(defs));
    hide Extended, Carry, Safe, EnvRel, Rel, PutAll, Get, GroupOk;
    forall y | y in d.deps
      ensures y in Names(defs) && Get(t1, y).Some? && Extended(defs, rest, defs[Place(defs, y)], Get(t1, y).value)
    {
      assert y in Elems(d.deps);
      GetBound(t, defs, us, y);
    }
  }

  /** A group of mutually recursive functions, bound by the rewriting: what the body gives with the group in scope,
      it gives with the bindings around it. */
  lemma MutualKept(delta: Delta, n: nat, defs: seq<Def>, body: Exp, env: Store, t: Store) returns (m: nat, w: Item)
    requires GroupOk(defs) && EnvRel(env, t, Outer(defs, body), map[])
    requires Yield(delta, n, body, Group(defs, env)).Some?
    ensures Mutual(defs, body).Some? && Yield(delta, m, Mutual(defs, body).value, t) == Some(w)
    ensures Rel(Yield(delta, n, body, Group(defs, env)).value, w)
  {
    hide *;
    var us := GroupBound(delta, defs, body, env, t);
    var t1 := PutAll(t, Names(defs), us);
    var ws := MutualEnv(delta, defs, body, env, t, us);
    var t2 := PutAll(t1, Names(defs), ws);
    CarryNone(body, true);
    m, w := Runs(delta, n, body, Group(defs, env), t2, map[], true);
    BindingsYield(delta, m, Names(defs), AllWrappers(defs), body, t1, ws);
    var longer := Extensions(defs, Recs(defs)).value;
    BindingsYield(delta, m + 2, Names(defs), longer, Bindings(Names(defs), AllWrappers(defs), body), t, us);
    MutualIs(defs, body);
    m := m + 4;
  }

  lemma MutualIs(defs: seq<Def>, body: Exp)
    requires Extensions(defs, Recs(defs)).Some?
    ensures Mutual(defs, body)
         == Some(Bindings(Names(defs), Extensions(defs, Recs(defs)).value,
                          Bindings(Names(defs), AllWrappers(defs), body)))
  {
  }

  /** The wrappers, bound inside of the longer functions. */
  lemma MutualEnv(delta: Delta, defs: seq<Def>, body: Exp, env: Store, t: Store, us: seq<Item>) returns (ws: seq<Item>)
    requires GroupOk(defs) && EnvRel(env, t, Outer(defs, body), map[]) && |us| == |defs|
    requires forall i :: 0 <= i < |defs| ==> Extended(defs, env, defs[i], us[i])
    ensures YieldAll(delta, 1, AllWrappers(defs), PutAll(t, Names(defs), us)) == Some(ws) && |ws| == |defs|
    ensures Ready(body, Group(defs, env), PutAll(PutAll(t, Names(defs), us), Names(defs), ws), map[], true)
  {
    var names, none: map<nat, Def>, t1 := Names(defs), map[], PutAll(t, Names(defs), us);
    ws := LambdasYield(delta, 1, AllWrappers(defs), t1);
    hide EnvRel, Rel, Extended, Yield, YieldAll, Carry, Safe, Outer, PutAll, Get;
    forall x | x in names ensures Member(defs, env, x, ws[Place(defs, x)], none) {
      MemberWrapped(defs, env, t, us, x);
    }
    assert Distinct(names);
    forall x | x in Free(body) && x !in names ensures Get(t1, x) == Get(t, x) {
      GetBound(t, defs, us, x);
    }
    hide GroupOk, Member, AllWrappers, Place;
    OuterBody(defs, body);
    EnvRelMove(env, t, t, Outer(defs, body), Free(body) - Elems(names), none, none);
    GroupEnv(defs, env, t, t1, ws, Free(body), none);
    SafeNone(body, true);
    NeedNone(Free(body));
  }

  lemma OuterBody(defs: seq<Def>, body: Exp)
    ensures Free(body) - Elems(Names(defs)) <= Outer(defs, body)
  {
  }

  lemma NeedNone(names: set<nat>)
    ensures Need(names, map[]) == names && Whole(names, map[])
  {
  }

  // ---- Simple recursion ----

  lemma {:induction false} CarryTotal(e: Exp, rec: map<nat, Def>)
    ensures Carry(e, rec, false).Some?
  {
    match e
    case Value(_) =>
    case Var(_) =>
    case Lambda(fs, b) => CarryTotal(b, rec - Elems(fs));
    case Ifeq(a, b, y, n) =>
      CarryTotal(a, rec);
      CarryTotal(b, rec);
      CarryTotal(y, rec);
      CarryTotal(n, rec);
    case Call(f, es) =>
      CarryTotal(f, rec);
      CarryAllTotal(es, rec);
  }

  lemma {:induction false} CarryAllTotal(es: seq<Exp>, rec: map<nat, Def>)
    ensures CarryAll(es, rec, false).Some?
  {
    if es != [] {
      CarryTotal(es[0], rec);
      CarryAllTotal(es[1..], rec);
    }
  }

  /** What is passed to the functions in r1 is not rewritten for r2. */
  ghost predicate Clear(r1: map<nat, Def>, r2: map<nat, Def>) {
    r1.Keys !! r2.Keys && forall x :: x in r1 ==> r1[x].name == x && Elems(r1[x].deps) !! r2.Keys
  }

  lemma {:induction false} CarryAllJoin(a: seq<Exp>, b: seq<Exp>, rec: map<nat, Def>)
    ensures CarryAll(a, rec, false).Some? && CarryAll(b, rec, false).Some?
    ensures CarryAll(a + b, rec, false) == Some(CarryAll(a, rec, false).value + CarryAll(b, rec, false).value)
  {
    CarryAllTotal(a, rec);
    CarryAllTotal(b, rec);
    if a == [] {
      var b' := CarryAll(b, rec, false).value;
      assert a + b == b && [] + b' == b';
    } else {
      assert (a + b)[1..] == a[1..] + b;
      CarryAllJoin(a[1..], b, rec);
      CarryTotal(a[0], rec);
      var e', a', b' := Carry(a[0], rec, false).value, CarryAll(a[1..], rec, false).value,
          CarryAll(b, rec, false).value;
      assert [e'] + (a' + b') == ([e'] + a') + b';
    }
  }

  lemma {:induction false} VarsKept(names: seq<nat>, rec: map<nat, Def>)
    requires Elems(names) !! rec.Keys
    ensures CarryAll(Vars(names), rec, false) == Some(Vars(names))
  {
    if names != [] {
      assert names[0] in Elems(names) && Elems(names[1..]) <= Elems(names);
      assert Vars(names)[1..] == Vars(names[1..]);
      VarsKept(names[1..], rec);
      assert Vars(names) == [Var(names[0])] + Vars(names[1..]);
    }
  }

  lemma WrapperStays(d: Def, rec: map<nat, Def>)
    requires d.name !in rec && Elems(d.deps) !! rec.Keys
    ensures Carry(Wrapper(d), rec, false) == Some(Wrapper(d))
  {
    var inner, names := rec - Elems(d.formals), d.formals + d.deps;
    forall x | x in Elems(names) ensures x !in inner {
      assert x in Elems(d.formals) || x in Elems(d.deps);
    }
    VarsKept(names, inner);
    assert d.name !in inner;
    assert Carry(Call(Var(d.name), Vars(names)), inner, false) == Some(Call(Var(d.name), Vars(names)));
  }

  /** Rewriting for some functions and then for others is rewriting for all of them. */
  lemma {:induction false} CarryTwice(e: Exp, r1: map<nat, Def>, r2: map<nat, Def>)
    requires Clear(r1, r2)
    ensures Carry(e, r1, false).Some? && Carry(Carry(e, r1, false).value, r2, false) == Carry(e, r1 + r2, false)
  {
    CarryTotal(e, r1);
    match e
    case Value(_) =>
    case Var(x) => if x in r1 { WrapperStays(r1[x], r2); }
    case Lambda(fs, b) =>
      assert (r1 + r2) - Elems(fs) == (r1 - Elems(fs)) + (r2 - Elems(fs));
      CarryTwice(b, r1 - Elems(fs), r2 - Elems(fs));
    case Ifeq(a, b, y, n) =>
      CarryTwice(a, r1, r2);
      CarryTwice(b, r1, r2);
      CarryTwice(y, r1, r2);
      CarryTwice(n, r1, r2);
    case Call(f, es) =>
      CarryTwice(f, r1, r2);
      CarryAllTwice(es, r1, r2);
      if f.Var? && f.name in r1 {
        var deps := r1[f.name].deps;
        VarsKept(deps, r2);
        CarryAllJoin(CarryAll(es, r1, false).value, Vars(deps), r2);
      }
  }

  lemma {:induction false} CarryAllTwice(es: seq<Exp>, r1: map<nat, Def>, r2: map<nat, Def>)
    requires Clear(r1, r2)
    ensures CarryAll(es, r1, false).Some?
    ensures CarryAll(CarryAll(es, r1, false).value, r2, false) == CarryAll(es, r1 + r2, false)
  {
    if es != [] {
      CarryTwice(es[0], r1, r2);
      CarryAllTwice(es[1..], r1, r2);
      var e', es' := Carry(es[0], r1, false).value, CarryAll(es[1..], r1, false).value;
      assert ([e'] + es')[1..] == es';
    }
  }

  /** Functions that depend on themselves only. */
  predicate Lonely(defs: seq<Def>) {
    forall d :: d in defs ==> d.deps == [d.name]
  }

  lemma {:induction false} CarryEachIs(e: Exp, defs: seq<Def>)
    requires Lonely(defs) && Distinct(Names(defs))
    ensures CarryEach(e, defs) == Carry(e, Recs(defs), false)
    decreases |defs|
  {
    if defs == [] {
      assert Recs(defs) == map[];
      CarryNone(e, false);
    } else {
      var one, rest := map[defs[0].name := defs[0]], Recs(defs[1..]);
      RecsSplit(defs);
      CarryTwice(e, one, rest);
      CarryEachIs(Carry(e, one, false).value, defs[1..]);
    }
  }

  lemma NamesTail(defs: seq<Def>)
    requires defs != [] && Distinct(Names(defs))
    ensures Names(defs) == [defs[0].name] + Names(defs[1..])
    ensures Distinct(Names(defs[1..])) && defs[0].name !in Names(defs[1..])
  {
    var names, more := Names(defs), Names(defs[1..]);
    assert forall i :: 0 <= i < |more| ==> more[i] == names[i + 1];
  }

  lemma RecsSplit(defs: seq<Def>)
    requires defs != [] && Lonely(defs) && Distinct(Names(defs))
    ensures Recs(defs) == map[defs[0].name := defs[0]] + Recs(defs[1..]) && Distinct(Names(defs[1..]))
    ensures Clear(map[defs[0].name := defs[0]], Recs(defs[1..]))
  {
    NamesTail(defs);
    var one, rest := map[defs[0].name := defs[0]], Recs(defs[1..]);
    TailClear(defs);
    assert rest.Keys == Elems(Names(defs[1..])) && Recs(defs).Keys == Elems(Names(defs));
    hide Names, Place, Distinct, Lonely, Clear, Recs;
    forall x ensures x in Recs(defs) <==> x in one || x in rest {
      assert x in Recs(defs) <==> x in Elems(Names(defs));
    }
    forall x | x in Recs(defs) ensures Recs(defs)[x] == (one + rest)[x] {
      RecsTail(defs, x);
    }
    assert Recs(defs) == one + rest;
  }

  lemma RecsTail(defs: seq<Def>, x: nat)
    requires defs != [] && Distinct(Names(defs)) && x in Names(defs)
    ensures if x == defs[0].name then Recs(defs)[x] == defs[0]
            else x in Names(defs[1..]) && Recs(defs)[x] == Recs(defs[1..])[x]
  {
    NamesTail(defs);
    assert x != defs[0].name ==> defs[Place(defs, x)] == defs[1..][Place(defs[1..], x)];
  }

  lemma TailClear(defs: seq<Def>)
    requires defs != [] && Lonely(defs) && Distinct(Names(defs))
    ensures Clear(map[defs[0].name := defs[0]], Recs(defs[1..]))
  {
    NamesTail(defs);
    assert defs[0] in defs && Elems(defs[0].deps) == {defs[0].name};
  }

  /** Simply recursive functions, bound by the rewriting: what the body gives with them in scope, it gives with the
      bindings around it and its calls rewritten. */
  lemma SimpleKept(delta: Delta, n: nat, defs: seq<Def>, body: Exp, env: Store, t: Store) returns (m: nat, w: Item)
    requires GroupOk(defs) && Lonely(defs) && EnvRel(env, t, Outer(defs, body), map[])
    requires Safe(body, Recs(defs), false) && Yield(delta, n, body, Group(defs, env)).Some?
    ensures Simple(defs, body).Some? && Yield(delta, m, Simple(defs, body).value, t) == Some(w)
    ensures Rel(Yield(delta, n, body, Group(defs, env)).value, w)
  {
    var us := GroupBound(delta, defs, body, env, t);
    SimpleEnv(defs, body, env, t, us);
    SimpleIs(defs, body);
    hide *;
    var t', rec := PutAll(t, Names(defs), us), Recs(defs);
    m, w := Runs(delta, n, body, Group(defs, env), t', rec, false);
    BindingsYield(delta, m, Names(defs), Extensions(defs, rec).value, Carry(body, rec, false).value, t, us);
    m := m + 2;
  }

  lemma SimpleEnv(defs: seq<Def>, body: Exp, env: Store, t: Store, us: seq<Item>)
    requires GroupOk(defs) && Lonely(defs) && EnvRel(env, t, Outer(defs, body), map[]) && |us| == |defs|
    requires Safe(body, Recs(defs), false) && forall i :: 0 <= i < |defs| ==> Extended(defs, env, defs[i], us[i])
    ensures Ready(body, Group(defs, env), PutAll(t, Names(defs), us), Recs(defs), false)
  {
    var names, none: map<nat, Def>, rec := Names(defs), map[], Recs(defs);
    var need := Need(Free(body), rec);
    LonelyNeed(defs, body);
    hide EnvRel, Rel, Extended, Carry, Safe, GroupOk, Need, Whole, Recs, Outer, Free, Lonely, Sub, Wrapped;
    EnvRelMove(env, t, t, Outer(defs, body), need - Elems(names), none, none);
    forall x | x in names ensures Member(defs, env, x, us[Place(defs, x)], rec) {
      assert x in rec && Extended(defs, env, defs[Place(defs, x)], us[Place(defs, x)]);
    }
    hide Member;
    GroupEnv(defs, env, t, t, us, need, rec);
  }

  lemma SimpleIs(defs: seq<Def>, body: Exp)
    requires Lonely(defs) && Distinct(Names(defs)) && Extensions(defs, Recs(defs)).Some?
    ensures Carry(body, Recs(defs), false).Some? && Simple(defs, body).Some?
    ensures Simple(defs, body).value
         == Bindings(Names(defs), Extensions(defs, Recs(defs)).value, Carry(body, Recs(defs), false).value)
  {
    CarryEachIs(body, defs);
    CarryTotal(body, Recs(defs));
  }

  lemma LonelyNeed(defs: seq<Def>, body: Exp)
    requires GroupOk(defs) && Lonely(defs)
    ensures var rec := Recs(defs);
            && Distinct(Names(defs)) && Whole(Free(body), rec) && Sub(rec, defs) && rec.Keys == Elems(Names(defs))
            && Need(Free(body), rec) - Elems(Names(defs)) <= Outer(defs, body)
  {
    var rec := Recs(defs);
    forall x | x in rec ensures rec[x] in defs && rec[x].deps == [x] {
      assert Names(defs)[Place(defs, x)] == x;
    }
  }

  // ---- Programs ----

  function LiftVal(v: Val): Item
    decreases v, 0
  {
    match v
    case Const(c) => Datum(c)
    case Clo(env, fs, b) => Fun(LiftEnv(env), fs, b)
  }

  function LiftEnv(env: Env): Store
    decreases env, 1
  {
    match env
    case Empty => Top
    case Bind(x, v, rest) => Local(x, LiftVal(v), LiftEnv(rest))
  }

  function LiftAll(vs: seq<Val>): (r: seq<Item>)
    ensures |r| == |vs|
  {
    if vs == [] then [] else [LiftVal(vs[0])] + LiftAll(vs[1..])
  }

  function Lift(v: Option<Val>): Option<Item> {
    if v.None? then None else Some(LiftVal(v.value))
  }

  lemma {:induction false} LookupLift(env: Env, x: nat)
    ensures Get(LiftEnv(env), x) == Lift(Lookup(env, x))
  {
    match env
    case Empty =>
    case Bind(_, _, rest) => LookupLift(rest, x);
  }

  lemma {:induction false} BindAllLift(env: Env, fs: seq<nat>, vs: seq<Val>)
    requires |fs| == |vs|
    ensures LiftEnv(BindAll(env, fs, vs)) == PutAll(LiftEnv(env), fs, LiftAll(vs))
    decreases |fs|
  {
    if fs != [] {
      assert LiftAll(vs)[1..] == LiftAll(vs[1..]);
      BindAllLift(Bind(fs[0], vs[0], env), fs[1..], vs[1..]);
    }
  }

  lemma {:induction false} DataLift(vs: seq<Val>)
    ensures Data(LiftAll(vs)) == Numbers(vs)
  {
    if vs != [] {
      assert LiftAll(vs)[1..] == LiftAll(vs[1..]);
      DataLift(vs[1..]);
    }
  }

  lemma AlikeLift(v: Val, w: Val)
    ensures Alike(LiftVal(v), LiftVal(w)) == Same(v, w)
  {
  }

  /** Without groups this is the evaluation that CPS conversion keeps. */
  lemma {:induction false} EvalLift(delta: Delta, n: nat, e: Exp, env: Env)
    ensures Yield(delta, n, e, LiftEnv(env)) == Lift(Eval(delta, n, e, env))
    decreases n, 0
  {
    if n > 0 {
      match e
      case Value(_) =>
      case Var(x) => LookupLift(env, x);
      case Lambda(_, _) =>
      case Ifeq(a, b, y, no) =>
        EvalLift(delta, n - 1, a, env);
        EvalLift(delta, n - 1, b, env);
        EvalLift(delta, n - 1, y, env);
        EvalLift(delta, n - 1, no, env);
        var va, vb := Eval(delta, n - 1, a, env), Eval(delta, n - 1, b, env);
        if va.Some? && vb.Some? { AlikeLift(va.value, vb.value); }
      case Call(f, es) =>
        EvalLift(delta, n - 1, f, env);
        EvalAllLift(delta, n - 1, es, env);
        var vf, vs := Eval(delta, n - 1, f, env), EvalAll(delta, n - 1, es, env);
        if vf.Some? && vs.Some? {
          DataLift(vs.value);
          if vf.value.Clo? && |vf.value.formals| == |vs.value| {
            BindAllLift(vf.value.env, vf.value.formals, vs.value);
            EvalLift(delta, n - 1, vf.value.body, BindAll(vf.value.env, vf.value.formals, vs.value));
          }
        }
    }
  }

  lemma {:induction false} EvalAllLift(delta: Delta, n: nat, es: seq<Exp>, env: Env)
    ensures var vs := EvalAll(delta, n, es, env);
            YieldAll(delta, n, es, LiftEnv(env)) == if vs.None? then None else Some(LiftAll(vs.value))
    decreases n, |es| + 1
  {
    if es != [] {
      EvalLift(delta, n, es[0], env);
      EvalAllLift(delta, n, es[1..], env);
    }
  }

  lemma DatumLifted(delta: Delta, n: nat, e: Exp, c: Const)
    requires Yield(delta, n, e, Top) == Some(Datum(c))
    ensures Eval(delta, n, e, Empty) == Some(Const(c))
  {
    EvalLift(delta, n, e, Empty);
  }

  lemma OnlyDatum(c: Const, w: Item)
    requires Rel(Datum(c), w)
    ensures w == Datum(c)
  {
  }

  lemma TopRel(need: set<nat>)
    ensures EnvRel(Top, Top, need, map[])
  {
  }

  /** A program that is a group with a body, and gives a datum, gives the same when the group has been rewritten. */
  lemma MutualProgram(delta: Delta, n: nat, defs: seq<Def>, body: Exp, c: Const) returns (m: nat)
    requires GroupOk(defs) && Yield(delta, n, body, Group(defs, Top)) == Some(Datum(c))
    ensures Mutual(defs, body).Some? && Eval(delta, m, Mutual(defs, body).value, Empty) == Some(Const(c))
  {
    hide *;
    TopRel(Outer(defs, body));
    var w;
    m, w := MutualKept(delta, n, defs, body, Top, Top);
    OnlyDatum(c, w);
    DatumLifted(delta, m, Mutual(defs, body).value, c);
  }

  lemma SimpleProgram(delta: Delta, n: nat, defs: seq<Def>, body: Exp, c: Const) returns (m: nat)
    requires GroupOk(defs) && Lonely(defs) && Safe(body, Recs(defs), false)
    requires Yield(delta, n, body, Group(defs, Top)) == Some(Datum(c))
    ensures Simple(defs, body).Some? && Eval(delta, m, Simple(defs, body).value, Empty) == Some(Const(c))
  {
    hide *;
    TopRel(Outer(defs, body));
    var w;
    m, w := SimpleKept(delta, n, defs, body, Top, Top);
    OnlyDatum(c, w);
    DatumLifted(delta, m, Simple(defs, body).value, c);
  }

  // ---- A group without clashing names ----

  /** No formal of the group's functions, and no binder in them, has the name of one of the group. */
  predicate Apart(defs: seq<Def>) {
    forall d :: d in defs ==> (Elems(d.formals) + Binders(d.body)) !! Elems(Names(defs))
  }

  /** Dependences as they are when a group has been picked: they are closed, and each function depends on itself. */
  predicate Closed(defs: seq<Def>) {
    && (forall d :: d in defs ==>
          && Distinct(d.deps) && d.name in d.deps && Elems(d.deps) <= Elems(Names(defs))
          && forall x :: x in Free(d.body) && x in Names(defs) ==> x in d.deps)
    && forall d, e :: d in defs && e in defs && e.name in d.deps ==> Elems(e.deps) <= Elems(d.deps)
  }

  lemma {:induction false} ApartSafe(e: Exp, rec: map<nat, Def>, strict: bool)
    requires Binders(e) !! rec.Keys
    requires forall x :: x in rec ==> Elems(rec[x].deps) <= rec.Keys && Elems(rec[x].formals) !! rec.Keys
    ensures Safe(e, rec, strict)
  {
    match e
    case Value(_) =>
    case Var(_) =>
    case Lambda(fs, b) =>
      assert rec - Elems(fs) == rec;
      ApartSafe(b, rec, strict);
    case Ifeq(a, b, y, n) =>
      ApartSafe(a, rec, strict);
      ApartSafe(b, rec, strict);
      ApartSafe(y, rec, strict);
      ApartSafe(n, rec, strict);
    case Call(f, es) =>
      ApartSafe(f, rec, strict);
      ApartAllSafe(es, rec, strict);
      if f.Var? && f.name in rec {
        forall x | x in FreeAll(es) && x in rec ensures x !in rec[f.name].formals {
          assert x !in Elems(rec[f.name].formals);
        }
      }
  }

  lemma {:induction false} ApartAllSafe(es: seq<Exp>, rec: map<nat, Def>, strict: bool)
    requires BindersAll(es) !! rec.Keys
    requires forall x :: x in rec ==> Elems(rec[x].deps) <= rec.Keys && Elems(rec[x].formals) !! rec.Keys
    ensures SafeAll(es, rec, strict)
  {
    if es != [] {
      ApartSafe(es[0], rec, strict);
      ApartAllSafe(es[1..], rec, strict);
    }
  }

  /** When no name clashes, and every call within the group has the right number of operands, nothing is captured. */
  lemma ApartOk(defs: seq<Def>)
    requires Distinct(Names(defs)) && Apart(defs) && Closed(defs)
    requires forall d :: d in defs ==> Distinct(d.formals) && Counted(d.body, Recs(defs))
    ensures GroupOk(defs)
  {
    var rec := Recs(defs);
    forall x | x in rec ensures rec[x] in defs {
    }
    forall d | d in defs ensures DefOk(d, defs) {
      ApartSafe(d.body, rec, true);
    }
  }

  // ---- A formal with the name of a function of the group ----

  function F(): Def {
    Def(0, [1], Call(Var(2), [Var(1)]), [0, 1, 2])
  }

  function G(): Def {
    Def(1, [4], Call(Var(0), [Var(4)]), [0, 1, 2])
  }

  function H(): Def {
    Def(2, [3], Ifeq(Var(3), Value(Num(0)), Value(Num(0)),
                     Ifeq(Var(3), Value(Num(1)), Call(Var(1), [Var(3)]), Value(Num(7)))),
        [0, 1, 2])
  }

  lemma CallVars(delta: Delta, k: nat, x: nat, names: seq<nat>, vs: seq<Item>, t: Store)
    requires k > 0 && |vs| == |names| && Get(t, x).Some?
    requires forall i :: 0 <= i < |names| ==> Get(t, names[i]) == Some(vs[i])
    ensures Yield(delta, k + 1, Call(Var(x), Vars(names)), t) == Apply(delta, k, Get(t, x).value, vs)
  {
    VarsYield(delta, k, names, vs, t);
  }

  lemma PutThree(t: Store, names: seq<nat>, vs: seq<Item>)
    requires |names| == |vs| == 3
    ensures PutAll(t, names, vs) == Local(names[2], vs[2], Local(names[1], vs[1], Local(names[0], vs[0], t)))
  {
    var t1, n1, v1 := Local(names[0], vs[0], t), names[1..], vs[1..];
    var t2, n2, v2 := Local(n1[0], v1[0], t1), n1[1..], v1[1..];
    assert PutAll(t, names, vs) == PutAll(t1, n1, v1) == PutAll(t2, n2, v2);
    assert n2[1..] == [] && v2[1..] == [];
    assert PutAll(t2, n2, v2) == PutAll(Local(n2[0], v2[0], t2), [], []);
  }

  lemma PutFour(t: Store, names: seq<nat>, vs: seq<Item>)
    requires |names| == |vs| == 4
    ensures PutAll(t, names, vs)
         == Local(names[3], vs[3], Local(names[2], vs[2], Local(names[1], vs[1], Local(names[0], vs[0], t))))
  {
    PutThree(Local(names[0], vs[0], t), names[1..], vs[1..]);
  }

  /** (letrec ((f (lambda (g) (h g))) (g (lambda (y) (f y))) (h (lambda (x) ..))) (f 0)): in f the formal g is taken
      for the function g, so h gets a function, and gives 7 instead of 0. */
  lemma FormalCaptured(delta: Delta)
    ensures var defs, body := [F(), G(), H()], Call(Var(0), [Value(Num(0))]);
            && !GroupOk(defs) && Yield(delta, 5, body, Group(defs, Top)) == Some(Datum(Num(0)))
            && Mutual(defs, body).Some? && Yield(delta, 10, Mutual(defs, body).value, Top) == Some(Datum(Num(7)))
  {
    SourceGives(delta);
    RewrittenGives(delta);
    NotApart([F(), G(), H()]);
    hide *;
  }

  lemma NotApart(defs: seq<Def>)
    requires F() in defs
    ensures !GroupOk(defs)
  {
    assert 1 in Elems(F().formals) && 1 in Elems(F().deps);
    assert !DefOk(F(), defs);
  }

  lemma GroupNames()
    ensures var defs := [F(), G(), H()];
            && Names(defs) == [0, 1, 2] && Recs(defs) == map[0 := F(), 1 := G(), 2 := H()]
            && Place(defs, 0) == 0 && Place(defs, 1) == 1 && Place(defs, 2) == 2
  {
    var defs := [F(), G(), H()];
    PlacesOf(defs);
    hide Names, Place;
    assert Elems([0, 1, 2]) == {0, 1, 2};
    assert Recs(defs).Keys == {0, 1, 2};
  }

  lemma PlacesOf(defs: seq<Def>)
    requires defs == [F(), G(), H()]
    ensures Names(defs) == [0, 1, 2] && Place(defs, 0) == 0 && Place(defs, 1) == 1 && Place(defs, 2) == 2
  {
    assert defs[1..] == [G(), H()] && defs[1..][1..] == [H()] && defs[1..][1..][1..] == [];
    assert Names(defs) == [0, 1, 2];
  }

  lemma SourceGives(delta: Delta)
    ensures Yield(delta, 5, Call(Var(0), [Value(Num(0))]), Group([F(), G(), H()], Top)) == Some(Datum(Num(0)))
  {
    GroupNames();
    var t, zero := Group([F(), G(), H()], Top), Datum(Num(0));
    var th, tf := PutAll(t, [3], [zero]), PutAll(t, [1], [zero]);
    assert [3][1..] == [] && [1][1..] == [] && [zero][1..] == [];
    assert th == Local(3, zero, t) && tf == Local(1, zero, t);
    assert Yield(delta, 2, H().body, th) == Some(zero);
    assert Vars([1]) == [Var(1)] by { assert [1][1..] == []; }
    CallVars(delta, 2, 2, [1], [zero], tf);
    assert Yield(delta, 3, F().body, tf) == Some(zero);
    OneDatum(delta, 4, t);
    YieldMore(delta, 3, 4, F().body, tf);
  }

  lemma OneDatum(delta: Delta, n: nat, t: Store)
    requires n > 0
    ensures YieldAll(delta, n, [Value(Num(0))], t) == Some([Datum(Num(0))])
  {
    assert [Value(Num(0))][1..] == [] && YieldAll(delta, n, [Value(Num(0))][1..], t) == Some([]);
    assert [Datum(Num(0))] + [] == [Datum(Num(0))];
  }

  /** The functions with their further formals, as they are rewritten. */
  lemma Longer()
    ensures var rec := map[0 := F(), 1 := G(), 2 := H()];
            && Carry(F().body, rec, true) == Some(Call(Var(2), [Wrapper(G())] + Vars([0, 1, 2])))
            && Carry(G().body, rec, true).Some?
            && var h := Carry(H().body, rec, true);
               && h.Some? && h.value.Ifeq? && h.value.a == Var(3) && h.value.b == Value(Num(0)) && h.value.no.Ifeq?
               && h.value.no.a == Var(3) && h.value.no.b == Value(Num(1)) && h.value.no.no == Value(Num(7))
  {
    var rec := map[0 := F(), 1 := G(), 2 := H()];
    OneVar(1, rec - Elems([3]));
    OneVar(4, rec - Elems([1]));
    OneVar(3, rec - Elems([4]));
    LongerH(rec);
  }

  lemma OneVar(x: nat, rec: map<nat, Def>)
    ensures CarryAll([Var(x)], rec, true) == Some([if x in rec then Wrapper(rec[x]) else Var(x)])
  {
    assert [Var(x)][1..] == [] && CarryAll([Var(x)][1..], rec, true) == Some([]);
    assert [if x in rec then Wrapper(rec[x]) else Var(x)] + [] == [if x in rec then Wrapper(rec[x]) else Var(x)];
  }

  lemma LongerH(rec: map<nat, Def>)
    requires rec == map[0 := F(), 1 := G(), 2 := H()]
    ensures var h := Carry(H().body, rec, true);
            && h.Some? && h.value.Ifeq? && h.value.a == Var(3) && h.value.b == Value(Num(0)) && h.value.no.Ifeq?
            && h.value.no.a == Var(3) && h.value.no.b == Value(Num(1)) && h.value.no.no == Value(Num(7))
  {
    OneVar(3, rec - Elems([4]));
    assert Carry(Call(Var(1), [Var(3)]), rec, true).Some?;
    assert Carry(H().body.no, rec, true).Some?;
  }

  lemma {:induction false} RewrittenGives(delta: Delta)
    ensures var defs, body := [F(), G(), H()], Call(Var(0), [Value(Num(0))]);
            Mutual(defs, body).Some? && Yield(delta, 10, Mutual(defs, body).value, Top) == Some(Datum(Num(7)))
  {
    hide *;
    var defs, body, names := [F(), G(), H()], Call(Var(0), [Value(Num(0))]), [0, 1, 2];
    GroupNames();
    var us := LongerBound(delta);
    var t1 := PutAll(Top, names, us);
    PutThree(Top, names, us);
    var ws := WrappersBound(delta, t1);
    CapturedCall(delta, us, t1);
    BodyGives(delta, t1, ws);
    BindingsYield(delta, 6, names, AllWrappers(defs), body, t1, ws);
    BindingsYield(delta, 8, names, Extensions(defs, Recs(defs)).value, Bindings(names, AllWrappers(defs), body), Top,
                  us);
    MutualIs(defs, body);
  }

  lemma WrappersBound(delta: Delta, t1: Store) returns (ws: seq<Item>)
    ensures YieldAll(delta, 1, AllWrappers([F(), G(), H()]), t1) == Some(ws)
    ensures |ws| == 3 && ws[0] == Fun(t1, [1], Call(Var(0), Vars([1] + [0, 1, 2])))
  {
    ws := LambdasYield(delta, 1, AllWrappers([F(), G(), H()]), t1);
  }

  lemma LongerBound(delta: Delta) returns (us: seq<Item>)
    ensures var longer := Extensions([F(), G(), H()], Recs([F(), G(), H()]));
            longer.Some? && YieldAll(delta, 1, longer.value, Top) == Some(us)
    ensures |us| == 3 && us[0] == Fun(Top, [1] + [0, 1, 2], Call(Var(2), [Wrapper(G())] + Vars([0, 1, 2])))
    ensures us[2].Fun? && us[2].env == Top && us[2].formals == [3] + [0, 1, 2]
    ensures var h := us[2].body;
            && h.Ifeq? && h.a == Var(3) && h.b == Value(Num(0)) && h.no.Ifeq?
            && h.no.a == Var(3) && h.no.b == Value(Num(1)) && h.no.no == Value(Num(7))
  {
    var defs := [F(), G(), H()];
    GroupNames();
    Longer();
    hide Carry, Yield, YieldAll;
    ExtensionsIs(defs, Recs(defs));
    us := LambdasYield(delta, 1, Extensions(defs, Recs(defs)).value, Top);
  }

  lemma {:induction false} BodyGives(delta: Delta, t1: Store, ws: seq<Item>)
    requires |ws| == 3 && ws[0] == Fun(t1, [1], Call(Var(0), Vars([1] + [0, 1, 2])))
    requires Yield(delta, 5, Call(Var(0), Vars([1] + [0, 1, 2])), Local(1, Datum(Num(0)), t1)) == Some(Datum(Num(7)))
    ensures Yield(delta, 6, Call(Var(0), [Value(Num(0))]), PutAll(t1, [0, 1, 2], ws)) == Some(Datum(Num(7)))
  {
    var t2, zero := PutAll(t1, [0, 1, 2], ws), Datum(Num(0));
    PutThree(t1, [0, 1, 2], ws);
    OneDatum(delta, 5, t2);
    assert PutAll(t1, [1], [zero]) == Local(1, zero, t1) by {
      assert [1][1..] == [] && [zero][1..] == [];
    }
    assert Apply(delta, 5, ws[0], [zero]) == Some(Datum(Num(7)));
    assert Get(t2, 0) == Get(t2.rest, 0) == Get(t2.rest.rest, 0) == Some(ws[0]);
  }

  lemma {:induction false} CapturedCall(delta: Delta, us: seq<Item>, t1: Store)
    requires |us| == 3 && t1 == Local(2, us[2], Local(1, us[1], Local(0, us[0], Top)))
    requires us[0] == Fun(Top, [1] + [0, 1, 2], Call(Var(2), [Wrapper(G())] + Vars([0, 1, 2])))
    requires us[2].Fun? && us[2].env == Top && us[2].formals == [3] + [0, 1, 2]
    requires var h := us[2].body;
             && h.Ifeq? && h.a == Var(3) && h.b == Value(Num(0)) && h.no.Ifeq?
             && h.no.a == Var(3) && h.no.b == Value(Num(1)) && h.no.no == Value(Num(7))
    ensures Yield(delta, 5, Call(Var(0), Vars([1] + [0, 1, 2])), Local(1, Datum(Num(0)), t1)) == Some(Datum(Num(7)))
  {
    var zero, t3 := Datum(Num(0)), Local(1, Datum(Num(0)), t1);
    var args := [zero, us[0], zero, us[2]];
    var t4 := PutAll(Top, [1] + [0, 1, 2], args);
    PutFour(Top, [1] + [0, 1, 2], args);
    assert [1] + [0, 1, 2] == [1, 0, 1, 2];
    assert t4 == Local(2, us[2], Local(1, zero, Local(0, us[0], Local(1, zero, Top))));
    assert Get(t4, 0) == Get(t4.rest, 0) == Get(t4.rest.rest, 0) == Some(us[0]);
    var f := Fun(t4, [4], Wrapper(G()).body);
    var passed := [f, us[0], zero, us[2]];
    SevenGiven(delta, us[2], passed);
    VarsYield(delta, 3, [0, 1, 2], [us[0], zero, us[2]], t4);
    assert ([Wrapper(G())] + Vars([0, 1, 2]))[1..] == Vars([0, 1, 2]);
    assert [f] + [us[0], zero, us[2]] == passed;
    assert YieldAll(delta, 3, us[0].body.rands, t4) == Some(passed);
    assert Yield(delta, 4, us[0].body, t4) == Some(Datum(Num(7)));
    assert Get(t3, 0) == Get(t1, 0) == Get(t1.rest, 0) == Get(t1.rest.rest, 0) == Some(us[0]);
    CallVars(delta, 4, 0, [1] + [0, 1, 2], args, t3);
  }

  /** h, given a function for a number. */
  lemma {:induction false} SevenGiven(delta: Delta, h: Item, passed: seq<Item>)
    requires h.Fun? && h.env == Top && h.formals == [3] + [0, 1, 2] && |passed| == 4 && passed[0].Fun?
    requires h.body.Ifeq? && h.body.a == Var(3) && h.body.b == Value(Num(0)) && h.body.no.Ifeq?
    requires h.body.no.a == Var(3) && h.body.no.b == Value(Num(1)) && h.body.no.no == Value(Num(7))
    ensures Apply(delta, 3, h, passed) == Some(Datum(Num(7)))
  {
    var t := PutAll(Top, [3] + [0, 1, 2], passed);
    PutFour(Top, [3] + [0, 1, 2], passed);
    assert Get(t, 3) == Get(t.rest, 3) == Get(t.rest.rest, 3) == Get(t.rest.rest.rest, 3) == Some(passed[0]);
    assert Yield(delta, 1, h.body.no.no, t) == Some(Datum(Num(7)));
    assert Yield(delta, 2, h.body.no, t) == Some(Datum(Num(7)));
    assert Yield(delta, 3, h.body, t) == Some(Datum(Num(7)));
  }
}
