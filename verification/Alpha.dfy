/** Generated names, and alpha conversion to them. */
module Alpha {
  import Ast
  import opened Lists
  import opened Wrappers

  datatype Node =
    | Value(val: Ast.Const)
    | Var(sym: Symbol)
    | Lambda(exact: bool, formals: seq<Symbol>, body: Node)   // lambda, or lambda-var with its flag
    | Call(rator: Node, rands: seq<Node>)
    | Values(vals: seq<Node>)
    | ValuesApply(op: Node, fn: Node)
    | Ifeq(a: Node, b: Node, yes: Node, no: Node)
    | Either(fn: Node, other: Node)

  // ---- gensym ----

  function Digit(d: nat): char
    requires d < 10
  {
    '0' + d as char
  }

  function Render(n: nat): (s: string)
    ensures s != []
  {
    if n < 10 then [Digit(n)] else Render(n / 10) + [Digit(n % 10)]
  }

  /** count-gensym-id: the number that the rest of the name spells, if it is all digits. */
  function CountId(s: string, n: nat): Option<nat> {
    if s == [] then Some(n)
    else if '/' < s[0] < ':' then CountId(s[1..], n * 10 + (s[0] as int - 48))
    else None
  }

  function GensymId(s: Symbol): Option<nat> {
    if |s| > 1 && s[0] == 'g' then CountId(s[1..], 0) else None
  }

  function Gen(n: nat): Symbol {
    "g" + Render(n)
  }

  function MaxSymbol(s: Symbol, max: nat): nat {
    var id := GensymId(s);
    if id.Some? && id.value > max then id.value else max
  }

  /** max-gensym-id on a list: one that continues with the symbol `quote` is not looked at. */
  function MaxFormals(fs: seq<Symbol>, max: nat): nat {
    if fs == [] || fs[0] == "quote" then max else MaxFormals(fs[1..], MaxSymbol(fs[0], max))
  }

  function MaxId(e: Node, max: nat): nat {
    match e
    case Value(_) => max
    case Var(s) => MaxSymbol(s, max)
    case Lambda(_, fs, b) => MaxId(b, MaxFormals(fs, max))
    case Call(f, es) => MaxId(f, MaxIds(es, max))
    case Values(es) => MaxIds(es, max)
    case ValuesApply(op, fn) => MaxId(op, MaxId(fn, max))
    case Ifeq(a, b, y, n) => MaxId(a, MaxId(b, MaxId(y, MaxId(n, max))))
    case Either(f, o) => MaxId(f, MaxId(o, max))
  }

  function MaxIds(es: seq<Node>, max: nat): nat {
    if es == [] then max else MaxIds(es[1..], MaxId(es[0], max))
  }

  /** The number of the first new name for e. */
  function FirstFree(e: Node): nat {
    1 + MaxId(e, 0)
  }

  lemma {:induction false} CountJoin(s: string, c: char, n: nat)
    requires CountId(s, n).Some? && '/' < c < ':'
    ensures CountId(s + [c], n) == Some(CountId(s, n).value * 10 + (c as int - 48))
  {
    if s == [] {
      assert [c][1..] == [];
    } else {
      assert (s + [c])[1..] == s[1..] + [c];
      CountJoin(s[1..], c, n * 10 + (s[0] as int - 48));
    }
  }

  lemma {:induction false} CountRender(n: nat)
    ensures CountId(Render(n), 0) == Some(n)
  {
    if n >= 10 {
      CountRender(n / 10);
      CountJoin(Render(n / 10), Digit(n % 10), 0);
    } else {
      assert [Digit(n)][1..] == [];
    }
  }

  predicate AllDigits(s: string) {
    forall i :: 0 <= i < |s| ==> '0' <= s[i] <= '9'
  }

  lemma {:induction false} CountDigits(s: string, n: nat)
    ensures CountId(s, n).Some? <==> AllDigits(s)
  {
    if s != [] {
      if '/' < s[0] < ':' { CountDigits(s[1..], n * 10 + (s[0] as int - 48)); }
      assert s == [s[0]] + s[1..];
    }
  }

  /** Taken for generated are the names of a `g` and at least one digit, and nothing else. */
  lemma GensymIdExact(s: Symbol)
    ensures GensymId(s).Some? <==> |s| > 1 && s[0] == 'g' && AllDigits(s[1..])
  {
    if |s| > 1 { CountDigits(s[1..], 0); }
  }

  /** A generated name tells its number, so different numbers give different names. */
  lemma GensymIdGen(n: nat)
    ensures GensymId(Gen(n)) == Some(n)
  {
    CountRender(n);
    assert Gen(n)[1..] == Render(n);
  }

  // ---- alpha ----

  function GenNames(k: nat, n: nat): (s: seq<Symbol>)
    ensures |s| == n
    decreases n
  {
    if n == 0 then [] else [Gen(k)] + GenNames(k + 1, n - 1)
  }

  /** Later formals win over earlier ones of the same name. */
  function BindFormals(env: map<Symbol, Symbol>, fs: seq<Symbol>, names: seq<Symbol>): map<Symbol, Symbol>
    requires |fs| == |names|
    decreases |fs|
  {
    if fs == [] then env else BindFormals(env[fs[0] := names[0]], fs[1..], names[1..])
  }

  /** The renamed expression and the next free number; a variable that is not bound is an error. */
  function Alpha(e: Node, env: map<Symbol, Symbol>, k: nat): Option<(Node, nat)> {
    match e
    case Value(_) => Some((e, k))
    case Var(s) => if s in env then Some((Var(env[s]), k)) else None
    case Lambda(exact, fs, b) =>
      var names := GenNames(k, |fs|);
      var (b', k') :- Alpha(b, BindFormals(env, fs, names), k + |fs|);
      Some((Lambda(exact, names, b'), k'))
    case Call(f, es) =>
      var (f', k1) :- Alpha(f, env, k);
      var (es', k2) :- AlphaList(es, env, k1);
      Some((Call(f', es'), k2))
    case Values(es) =>
      var (es', k1) :- AlphaList(es, env, k);
      Some((Values(es'), k1))
    case ValuesApply(op, fn) =>
      var (op', k1) :- Alpha(op, env, k);
      var (fn', k2) :- Alpha(fn, env, k1);
      Some((ValuesApply(op', fn'), k2))
    case Ifeq(a, b, y, n) =>
      var (a', k1) :- Alpha(a, env, k);
      var (b', k2) :- Alpha(b, env, k1);
      var (y', k3) :- Alpha(y, env, k2);
      var (n', k4) :- Alpha(n, env, k3);
      Some((Ifeq(a', b', y', n'), k4))
    case Either(f, o) =>
      var (f', k1) :- Alpha(f, env, k);
      var (o', k2) :- Alpha(o, env, k1);
      Some((Either(f', o'), k2))
  }

  function AlphaList(es: seq<Node>, env: map<Symbol, Symbol>, k: nat): Option<(seq<Node>, nat)> {
    if es == [] then Some(([], k))
    else
      var (e', k1) :- Alpha(es[0], env, k);
      var (es', k2) :- AlphaList(es[1..], env, k1);
      Some(([e'] + es', k2))
  }

  function AlphaConvert(e: Node): Option<Node> {
    var r := Alpha(e, map[], FirstFree(e));
    if r.None? then None else Some(r.value.0)
  }

  // ---- The binders of the result ----

  /** All binders, in the order in which they are met. */
  function Bound(e: Node): seq<Symbol> {
    match e
    case Value(_) => []
    case Var(_) => []
    case Lambda(_, fs, b) => fs + Bound(b)
    case Call(f, es) => Bound(f) + BoundList(es)
    case Values(es) => BoundList(es)
    case ValuesApply(op, fn) => Bound(op) + Bound(fn)
    case Ifeq(a, b, y, n) => Bound(a) + Bound(b) + Bound(y) + Bound(n)
    case Either(f, o) => Bound(f) + Bound(o)
  }

  function BoundList(es: seq<Node>): seq<Symbol> {
    if es == [] then [] else Bound(es[0]) + BoundList(es[1..])
  }

  lemma {:induction false} GenNamesJoin(k: nat, m: nat, n: nat)
    ensures GenNames(k, m + n) == GenNames(k, m) + GenNames(k + m, n)
    decreases m
  {
    if m > 0 { GenNamesJoin(k + 1, m - 1, n); }
  }

  /** The numbers from k to k', as names. */
  ghost predicate Fills(names: seq<Symbol>, k: nat, k': nat) {
    k <= k' && names == GenNames(k, k' - k)
  }

  lemma FillsJoin(a: seq<Symbol>, k: nat, k1: nat, b: seq<Symbol>, k2: nat)
    requires Fills(a, k, k1) && Fills(b, k1, k2)
    ensures Fills(a + b, k, k2)
  {
    GenNamesJoin(k, k1 - k, k2 - k1);
  }

  /** The binders of the converted expression are the generated names with the numbers from k on, in
      order and without gaps: pairwise distinct, and all new. */
  lemma {:induction false} BoundIsNew(e: Node, env: map<Symbol, Symbol>, k: nat)
    requires Alpha(e, env, k).Some?
    ensures Fills(Bound(Alpha(e, env, k).value.0), k, Alpha(e, env, k).value.1)
  {
    match e
    case Value(_) =>
    case Var(_) =>
    case Lambda(_, fs, b) =>
      var names := GenNames(k, |fs|);
      BoundIsNew(b, BindFormals(env, fs, names), k + |fs|);
      var r := Alpha(b, BindFormals(env, fs, names), k + |fs|).value;
      FillsJoin(names, k, k + |fs|, Bound(r.0), r.1);
    case Call(f, es) =>
      BoundIsNew(f, env, k);
      var r := Alpha(f, env, k).value;
      BoundListIsNew(es, env, r.1);
      var rs := AlphaList(es, env, r.1).value;
      FillsJoin(Bound(r.0), k, r.1, BoundList(rs.0), rs.1);
    case Values(es) => BoundListIsNew(es, env, k);
    case ValuesApply(a, b) =>
      BoundIsNew(a, env, k);
      var r := Alpha(a, env, k).value;
      BoundIsNew(b, env, r.1);
      var s := Alpha(b, env, r.1).value;
      FillsJoin(Bound(r.0), k, r.1, Bound(s.0), s.1);
    case Ifeq(a, b, y, n) =>
      BoundIsNew(a, env, k);
      var r := Alpha(a, env, k).value;
      BoundIsNew(b, env, r.1);
      var s := Alpha(b, env, r.1).value;
      FillsJoin(Bound(r.0), k, r.1, Bound(s.0), s.1);
      BoundIsNew(y, env, s.1);
      var u := Alpha(y, env, s.1).value;
      BoundIsNew(n, env, u.1);
      var w := Alpha(n, env, u.1).value;
      FillsJoin(Bound(r.0) + Bound(s.0), k, s.1, Bound(u.0), u.1);
      FillsJoin(Bound(r.0) + Bound(s.0) + Bound(u.0), k, u.1, Bound(w.0), w.1);
    case Either(a, b) =>
      BoundIsNew(a, env, k);
      var r := Alpha(a, env, k).value;
      BoundIsNew(b, env, r.1);
      var s := Alpha(b, env, r.1).value;
      FillsJoin(Bound(r.0), k, r.1, Bound(s.0), s.1);
  }

  lemma {:induction false} BoundListIsNew(es: seq<Node>, env: map<Symbol, Symbol>, k: nat)
    requires AlphaList(es, env, k).Some?
    ensures Fills(BoundList(AlphaList(es, env, k).value.0), k, AlphaList(es, env, k).value.1)
  {
    if es != [] {
      BoundIsNew(es[0], env, k);
      var r := Alpha(es[0], env, k).value;
      BoundListIsNew(es[1..], env, r.1);
      var rs := AlphaList(es[1..], env, r.1).value;
      FillsJoin(Bound(r.0), k, r.1, BoundList(rs.0), rs.1);
      assert ([r.0] + rs.0)[1..] == rs.0;
    }
  }

  // ---- Names and numbers ----

  /** An expression with its bound variables numbered: how many binders up, starting from the last
      formal of the innermost lambda. */
  datatype Nameless =
    | NValue(val: Ast.Const)
    | NBound(index: nat)
    | NFree(sym: Symbol)
    | NLambda(exact: bool, arity: nat, body: Nameless)
    | NCall(rator: Nameless, rands: seq<Nameless>)
    | NValues(vals: seq<Nameless>)
    | NValuesApply(op: Nameless, fn: Nameless)
    | NIfeq(a: Nameless, b: Nameless, yes: Nameless, no: Nameless)
    | NEither(fn: Nameless, other: Nameless)

  /** The first place of s in scope, or the length of scope. */
  function Find<T(==)>(scope: seq<T>, s: T): (i: nat)
    ensures i <= |scope| && (i < |scope| ==> scope[i] == s) && forall j :: 0 <= j < i ==> scope[j] != s
  {
    if scope == [] || scope[0] == s then 0 else 1 + Find(scope[1..], s)
  }

  function DeBruijn(e: Node, scope: seq<Symbol>): Nameless {
    match e
    case Value(v) => NValue(v)
    case Var(s) => if Find(scope, s) < |scope| then NBound(Find(scope, s)) else NFree(s)
    case Lambda(exact, fs, b) => NLambda(exact, |fs|, DeBruijn(b, Reversed(fs) + scope))
    case Call(f, es) => NCall(DeBruijn(f, scope), DeBruijnList(es, scope))
    case Values(es) => NValues(DeBruijnList(es, scope))
    case ValuesApply(op, fn) => NValuesApply(DeBruijn(op, scope), DeBruijn(fn, scope))
    case Ifeq(a, b, y, n) => NIfeq(DeBruijn(a, scope), DeBruijn(b, scope), DeBruijn(y, scope), DeBruijn(n, scope))
    case Either(f, o) => NEither(DeBruijn(f, scope), DeBruijn(o, scope))
  }

  function DeBruijnList(es: seq<Node>, scope: seq<Symbol>): seq<Nameless> {
    if es == [] then [] else [DeBruijn(es[0], scope)] + DeBruijnList(es[1..], scope)
  }

  /** env takes each name in scope to the name in the same place of a scope of generated names with
      distinct numbers below k, and knows no others. */
  ghost predicate Follows(env: map<Symbol, Symbol>, scope: seq<Symbol>, scope': seq<Symbol>, k: nat) {
    && |scope| == |scope'|
    && (forall s :: s in env <==> Find(scope, s) < |scope|)
    && (forall s :: s in env ==> env[s] == scope'[Find(scope, s)])
    && (forall i :: 0 <= i < |scope'| ==> IsGen(scope'[i], k))
    && (forall i, j :: 0 <= i < j < |scope'| ==> GensymId(scope'[i]) != GensymId(scope'[j]))
  }

  /** A generated name with a number below k. */
  ghost predicate IsGen(s: Symbol, k: nat) {
    GensymId(s).Some? && GensymId(s).value < k
  }

  lemma FindOnly<T>(scope: seq<T>, i: nat)
    requires i < |scope| && forall j :: 0 <= j < i ==> scope[j] != scope[i]
    ensures Find(scope, scope[i]) == i
  {
  }

  lemma FindCons<T>(x: T, scope: seq<T>, s: T)
    ensures Find([x] + scope, s) == if s == x then 0 else 1 + Find(scope, s)
  {
    assert ([x] + scope)[1..] == scope;
  }

  lemma FollowsOne(env: map<Symbol, Symbol>, scope: seq<Symbol>, scope': seq<Symbol>, k: nat, f: Symbol)
    requires Follows(env, scope, scope', k)
    ensures Follows(env[f := Gen(k)], [f] + scope, [Gen(k)] + scope', k + 1)
  {
    var e2, s2, s2' := env[f := Gen(k)], [f] + scope, [Gen(k)] + scope';
    GensymIdGen(k);
    forall s ensures (s in e2 <==> Find(s2, s) < |s2|) && (s in e2 ==> e2[s] == s2'[Find(s2, s)]) {
      FindCons(f, scope, s);
    }
    hide Find;
    forall i | 0 <= i < |s2'| ensures IsGen(s2'[i], k + 1) {
      assert i > 0 ==> s2'[i] == scope'[i - 1] && IsGen(scope'[i - 1], k);
    }
    forall i, j | 0 <= i < j < |s2'| ensures GensymId(s2'[i]) != GensymId(s2'[j]) {
      assert s2'[j] == scope'[j - 1] && IsGen(scope'[j - 1], k);
    }
  }

  lemma {:induction false} FollowsFormals(env: map<Symbol, Symbol>, scope: seq<Symbol>, scope': seq<Symbol>, k: nat,
          fs: seq<Symbol>)
    requires Follows(env, scope, scope', k)
    ensures Follows(BindFormals(env, fs, GenNames(k, |fs|)), Reversed(fs) + scope,
                    Reversed(GenNames(k, |fs|)) + scope', k + |fs|)
    decreases |fs|
  {
    hide Follows;
    var names := GenNames(k, |fs|);
    if fs == [] {
      assert Reversed(fs) + scope == scope && Reversed(names) + scope' == scope';
    } else {
      FollowsOne(env, scope, scope', k, fs[0]);
      FollowsFormals(env[fs[0] := Gen(k)], [fs[0]] + scope, [Gen(k)] + scope', k + 1, fs[1..]);
      assert names[1..] == GenNames(k + 1, |fs| - 1);
      assert Reversed(fs) + scope == Reversed(fs[1..]) + ([fs[0]] + scope);
      assert Reversed(names) + scope' == Reversed(names[1..]) + ([Gen(k)] + scope');
    }
  }

  lemma FollowsVar(env: map<Symbol, Symbol>, scope: seq<Symbol>, scope': seq<Symbol>, k: nat, s: Symbol)
    requires Follows(env, scope, scope', k)
    ensures s in env <==> Find(scope, s) < |scope|
    ensures s in env ==> Find(scope', env[s]) == Find(scope, s) && |scope| == |scope'|
  {
    if s in env { FindOnly(scope', Find(scope, s)); }
  }

  /** Conversion changes no binding: with bound variables numbered, the result is the same expression. */
  lemma {:induction false} AlphaEquivalent(e: Node, env: map<Symbol, Symbol>, k: nat, k0: nat, scope: seq<Symbol>,
          scope': seq<Symbol>)
    requires Follows(env, scope, scope', k0) && k0 <= k && Alpha(e, env, k).Some?
    ensures DeBruijn(Alpha(e, env, k).value.0, scope') == DeBruijn(e, scope) && k <= Alpha(e, env, k).value.1
  {
    hide Follows, Find;
    match e
    case Value(_) =>
    case Var(s) => FollowsVar(env, scope, scope', k0, s);
    case Lambda(_, fs, b) =>
      FollowsMore(env, scope, scope', k0, k);
      FollowsFormals(env, scope, scope', k, fs);
      var names := GenNames(k, |fs|);
      AlphaEquivalent(b, BindFormals(env, fs, names), k + |fs|, k + |fs|, Reversed(fs) + scope,
                      Reversed(names) + scope');
    case Call(f, es) =>
      AlphaEquivalent(f, env, k, k0, scope, scope');
      AlphaListEquivalent(es, env, Alpha(f, env, k).value.1, k0, scope, scope');
    case Values(es) => AlphaListEquivalent(es, env, k, k0, scope, scope');
    case ValuesApply(a, b) =>
      AlphaEquivalent(a, env, k, k0, scope, scope');
      AlphaEquivalent(b, env, Alpha(a, env, k).value.1, k0, scope, scope');
    case Ifeq(a, b, y, n) =>
      AlphaEquivalent(a, env, k, k0, scope, scope');
      var k1 := Alpha(a, env, k).value.1;
      AlphaEquivalent(b, env, k1, k0, scope, scope');
      var k2 := Alpha(b, env, k1).value.1;
      AlphaEquivalent(y, env, k2, k0, scope, scope');
      AlphaEquivalent(n, env, Alpha(y, env, k2).value.1, k0, scope, scope');
    case Either(a, b) =>
      AlphaEquivalent(a, env, k, k0, scope, scope');
      AlphaEquivalent(b, env, Alpha(a, env, k).value.1, k0, scope, scope');
  }

  lemma {:induction false} AlphaListEquivalent(es: seq<Node>, env: map<Symbol, Symbol>, k: nat, k0: nat,
          scope: seq<Symbol>, scope': seq<Symbol>)
    requires Follows(env, scope, scope', k0) && k0 <= k && AlphaList(es, env, k).Some?
    ensures DeBruijnList(AlphaList(es, env, k).value.0, scope') == DeBruijnList(es, scope)
         && k <= AlphaList(es, env, k).value.1
  {
    if es != [] {
      AlphaEquivalent(es[0], env, k, k0, scope, scope');
      var r := Alpha(es[0], env, k).value;
      AlphaListEquivalent(es[1..], env, r.1, k0, scope, scope');
      var rs := AlphaList(es[1..], env, r.1).value;
      assert ([r.0] + rs.0)[1..] == rs.0;
    }
  }

  lemma FollowsMore(env: map<Symbol, Symbol>, scope: seq<Symbol>, scope': seq<Symbol>, k: nat, k': nat)
    requires Follows(env, scope, scope', k) && k <= k'
    ensures Follows(env, scope, scope', k')
  {
    forall i | 0 <= i < |scope'| ensures IsGen(scope'[i], k') {
      assert IsGen(scope'[i], k);
    }
  }

  /** All variables are bound. */
  predicate Closed(e: Node, scope: seq<Symbol>) {
    match e
    case Value(_) => true
    case Var(s) => Find(scope, s) < |scope|
    case Lambda(_, fs, b) => Closed(b, Reversed(fs) + scope)
    case Call(f, es) => Closed(f, scope) && ClosedList(es, scope)
    case Values(es) => ClosedList(es, scope)
    case ValuesApply(op, fn) => Closed(op, scope) && Closed(fn, scope)
    case Ifeq(a, b, y, n) => Closed(a, scope) && Closed(b, scope) && Closed(y, scope) && Closed(n, scope)
    case Either(f, o) => Closed(f, scope) && Closed(o, scope)
  }

  predicate ClosedList(es: seq<Node>, scope: seq<Symbol>) {
    es == [] || (Closed(es[0], scope) && ClosedList(es[1..], scope))
  }

  /** Conversion succeeds exactly on closed expressions. */
  lemma {:induction false} ClosedConverts(e: Node, env: map<Symbol, Symbol>, k: nat, k0: nat, scope: seq<Symbol>,
          scope': seq<Symbol>)
    requires Follows(env, scope, scope', k0) && k0 <= k
    ensures Alpha(e, env, k).Some? <==> Closed(e, scope)
    ensures Alpha(e, env, k).Some? ==> k <= Alpha(e, env, k).value.1
  {
    hide Follows, Find;
    match e
    case Value(_) =>
    case Var(s) => FollowsVar(env, scope, scope', k0, s);
    case Lambda(_, fs, b) =>
      FollowsMore(env, scope, scope', k0, k);
      FollowsFormals(env, scope, scope', k, fs);
      var names := GenNames(k, |fs|);
      ClosedConverts(b, BindFormals(env, fs, names), k + |fs|, k + |fs|, Reversed(fs) + scope,
                     Reversed(names) + scope');
    case Call(f, es) =>
      ClosedConverts(f, env, k, k0, scope, scope');
      if Alpha(f, env, k).Some? { ClosedListConverts(es, env, Alpha(f, env, k).value.1, k0, scope, scope'); }
    case Values(es) => ClosedListConverts(es, env, k, k0, scope, scope');
    case ValuesApply(a, b) =>
      ClosedConverts(a, env, k, k0, scope, scope');
      if Alpha(a, env, k).Some? { ClosedConverts(b, env, Alpha(a, env, k).value.1, k0, scope, scope'); }
    case Ifeq(a, b, y, n) =>
      ClosedConverts(a, env, k, k0, scope, scope');
      if Alpha(a, env, k).Some? {
        var k1 := Alpha(a, env, k).value.1;
        ClosedConverts(b, env, k1, k0, scope, scope');
        if Alpha(b, env, k1).Some? {
          var k2 := Alpha(b, env, k1).value.1;
          ClosedConverts(y, env, k2, k0, scope, scope');
          if Alpha(y, env, k2).Some? { ClosedConverts(n, env, Alpha(y, env, k2).value.1, k0, scope, scope'); }
        }
      }
    case Either(a, b) =>
      ClosedConverts(a, env, k, k0, scope, scope');
      if Alpha(a, env, k).Some? { ClosedConverts(b, env, Alpha(a, env, k).value.1, k0, scope, scope'); }
  }

  lemma {:induction false} ClosedListConverts(es: seq<Node>, env: map<Symbol, Symbol>, k: nat, k0: nat,
          scope: seq<Symbol>, scope': seq<Symbol>)
    requires Follows(env, scope, scope', k0) && k0 <= k
    ensures AlphaList(es, env, k).Some? <==> ClosedList(es, scope)
    ensures AlphaList(es, env, k).Some? ==> k <= AlphaList(es, env, k).value.1
  {
    if es != [] {
      ClosedConverts(es[0], env, k, k0, scope, scope');
      if Alpha(es[0], env, k).Some? {
        ClosedListConverts(es[1..], env, Alpha(es[0], env, k).value.1, k0, scope, scope');
      }
    }
  }

  /** The generated names that are looked at when the first new one is chosen: those of variables, and
      of formals up to one named `quote`. */
  function Seen(e: Node): seq<Symbol> {
    match e
    case Value(_) => []
    case Var(s) => [s]
    case Lambda(_, fs, b) => SeenFormals(fs) + Seen(b)
    case Call(f, es) => Seen(f) + SeenList(es)
    case Values(es) => SeenList(es)
    case ValuesApply(op, fn) => Seen(op) + Seen(fn)
    case Ifeq(a, b, y, n) => Seen(a) + Seen(b) + Seen(y) + Seen(n)
    case Either(f, o) => Seen(f) + Seen(o)
  }

  function SeenFormals(fs: seq<Symbol>): seq<Symbol> {
    if fs == [] || fs[0] == "quote" then [] else [fs[0]] + SeenFormals(fs[1..])
  }

  function SeenList(es: seq<Node>): seq<Symbol> {
    if es == [] then [] else Seen(es[0]) + SeenList(es[1..])
  }

  /** The formals that are not looked at: those after one named `quote`. */
  function Hidden(e: Node): seq<Symbol> {
    match e
    case Value(_) => []
    case Var(_) => []
    case Lambda(_, fs, b) => HiddenFormals(fs) + Hidden(b)
    case Call(f, es) => Hidden(f) + HiddenList(es)
    case Values(es) => HiddenList(es)
    case ValuesApply(op, fn) => Hidden(op) + Hidden(fn)
    case Ifeq(a, b, y, n) => Hidden(a) + Hidden(b) + Hidden(y) + Hidden(n)
    case Either(f, o) => Hidden(f) + Hidden(o)
  }

  function HiddenFormals(fs: seq<Symbol>): seq<Symbol> {
    if fs == [] then []
    else if fs[0] == "quote" then fs[1..]
    else HiddenFormals(fs[1..])
  }

  function HiddenList(es: seq<Node>): seq<Symbol> {
    if es == [] then [] else Hidden(es[0]) + HiddenList(es[1..])
  }

  /** Every name in an expression. */
  function Names(e: Node): seq<Symbol> {
    match e
    case Value(_) => []
    case Var(s) => [s]
    case Lambda(_, fs, b) => fs + Names(b)
    case Call(f, es) => Names(f) + NamesList(es)
    case Values(es) => NamesList(es)
    case ValuesApply(op, fn) => Names(op) + Names(fn)
    case Ifeq(a, b, y, n) => Names(a) + Names(b) + Names(y) + Names(n)
    case Either(f, o) => Names(f) + Names(o)
  }

  function NamesList(es: seq<Node>): seq<Symbol> {
    if es == [] then [] else Names(es[0]) + NamesList(es[1..])
  }

  /** The generated names among these have numbers below k. */
  ghost predicate Below(names: seq<Symbol>, k: nat) {
    forall i :: 0 <= i < |names| ==> GensymId(names[i]).Some? ==> IsGen(names[i], k)
  }

  /** Each of `young` is a generated name, and has a higher number than each generated name among the others. */
  ghost predicate Newer(young: seq<Symbol>, others: seq<Symbol>) {
    forall i :: 0 <= i < |young| ==> GensymId(young[i]).Some? && Below(others, GensymId(young[i]).value)
  }

  lemma {:induction false} MaxFormalsBounds(fs: seq<Symbol>, max: nat)
    ensures Below(SeenFormals(fs), MaxFormals(fs, max) + 1) && max <= MaxFormals(fs, max)
  {
    if fs != [] && fs[0] != "quote" { MaxFormalsBounds(fs[1..], MaxSymbol(fs[0], max)); }
  }

  lemma {:induction false} MaxIdBounds(e: Node, max: nat)
    ensures Below(Seen(e), MaxId(e, max) + 1) && max <= MaxId(e, max)
  {
    match e
    case Value(_) =>
    case Var(_) =>
    case Lambda(_, fs, b) =>
      MaxFormalsBounds(fs, max);
      MaxIdBounds(b, MaxFormals(fs, max));
    case Call(f, es) =>
      MaxIdsBounds(es, max);
      MaxIdBounds(f, MaxIds(es, max));
    case Values(es) => MaxIdsBounds(es, max);
    case ValuesApply(a, b) =>
      MaxIdBounds(b, max);
      MaxIdBounds(a, MaxId(b, max));
    case Ifeq(a, b, y, n) =>
      MaxIdBounds(n, max);
      MaxIdBounds(y, MaxId(n, max));
      MaxIdBounds(b, MaxId(y, MaxId(n, max)));
      MaxIdBounds(a, MaxId(b, MaxId(y, MaxId(n, max))));
    case Either(a, b) =>
      MaxIdBounds(b, max);
      MaxIdBounds(a, MaxId(b, max));
  }

  lemma {:induction false} MaxIdsBounds(es: seq<Node>, max: nat)
    ensures Below(SeenList(es), MaxIds(es, max) + 1) && max <= MaxIds(es, max)
  {
    if es != [] {
      MaxIdBounds(es[0], max);
      MaxIdsBounds(es[1..], MaxId(es[0], max));
    }
  }

  lemma {:induction false} GenNamesAt(k: nat, n: nat, i: nat)
    requires i < n
    ensures GenNames(k, n)[i] == Gen(k + i)
    decreases n
  {
    if i > 0 { GenNamesAt(k + 1, n - 1, i - 1); }
  }

  lemma {:induction false} FormalsSplit(fs: seq<Symbol>)
    ensures forall x :: x in fs <==> x in SeenFormals(fs) || x in HiddenFormals(fs) || (x == "quote" && x in fs)
    ensures |HiddenFormals(fs)| <= |fs|
  {
    if fs != [] && fs[0] != "quote" { FormalsSplit(fs[1..]); }
  }

  /** What is not looked at is hidden. */
  lemma {:induction false} NamesSplit(e: Node, x: Symbol)
    ensures x != "quote" ==> (x in Names(e) <==> x in Seen(e) || x in Hidden(e))
    ensures |Hidden(e)| <= |Bound(e)|
  {
    match e
    case Value(_) =>
    case Var(_) =>
    case Lambda(_, fs, b) =>
      FormalsSplit(fs);
      NamesSplit(b, x);
    case Call(f, es) =>
      NamesSplit(f, x);
      NamesListSplit(es, x);
    case Values(es) => NamesListSplit(es, x);
    case ValuesApply(a, b) =>
      NamesSplit(a, x);
      NamesSplit(b, x);
    case Ifeq(a, b, y, n) =>
      NamesSplit(a, x);
      NamesSplit(b, x);
      NamesSplit(y, x);
      NamesSplit(n, x);
    case Either(a, b) =>
      NamesSplit(a, x);
      NamesSplit(b, x);
  }

  lemma {:induction false} NamesListSplit(es: seq<Node>, x: Symbol)
    ensures x != "quote" ==> (x in NamesList(es) <==> x in SeenList(es) || x in HiddenList(es))
    ensures |HiddenList(es)| <= |BoundList(es)|
  {
    if es != [] {
      NamesSplit(es[0], x);
      NamesListSplit(es[1..], x);
    }
  }

  /** As many binders come out as went in. */
  lemma {:induction false} BindersKept(e: Node, env: map<Symbol, Symbol>, k: nat)
    requires Alpha(e, env, k).Some?
    ensures |Bound(Alpha(e, env, k).value.0)| == |Bound(e)|
  {
    match e
    case Value(_) =>
    case Var(_) =>
    case Lambda(_, fs, b) => BindersKept(b, BindFormals(env, fs, GenNames(k, |fs|)), k + |fs|);
    case Call(f, es) =>
      BindersKept(f, env, k);
      BindersListKept(es, env, Alpha(f, env, k).value.1);
    case Values(es) => BindersListKept(es, env, k);
    case ValuesApply(a, b) =>
      BindersKept(a, env, k);
      BindersKept(b, env, Alpha(a, env, k).value.1);
    case Ifeq(a, b, y, n) =>
      BindersKept(a, env, k);
      var k1 := Alpha(a, env, k).value.1;
      BindersKept(b, env, k1);
      var k2 := Alpha(b, env, k1).value.1;
      BindersKept(y, env, k2);
      BindersKept(n, env, Alpha(y, env, k2).value.1);
    case Either(a, b) =>
      BindersKept(a, env, k);
      BindersKept(b, env, Alpha(a, env, k).value.1);
  }

  lemma {:induction false} BindersListKept(es: seq<Node>, env: map<Symbol, Symbol>, k: nat)
    requires AlphaList(es, env, k).Some?
    ensures |BoundList(AlphaList(es, env, k).value.0)| == |BoundList(es)|
  {
    if es != [] {
      BindersKept(es[0], env, k);
      BindersListKept(es[1..], env, Alpha(es[0], env, k).value.1);
    }
  }

  /** The binders of the result are numbered from the first free name on. */
  lemma Numbered(e: Node)
    requires Closed(e, [])
    ensures AlphaConvert(e).Some? && |Bound(AlphaConvert(e).value)| == |Bound(e)|
    ensures forall i :: 0 <= i < |Bound(e)| ==> GensymId(Bound(AlphaConvert(e).value)[i]) == Some(FirstFree(e) + i)
  {
    var k := FirstFree(e);
    var env: map<Symbol, Symbol> := map[];
    ClosedConverts(e, env, k, k, [], []);
    BoundIsNew(e, env, k);
    BindersKept(e, env, k);
    var names := Bound(AlphaConvert(e).value);
    forall i | 0 <= i < |names| ensures GensymId(names[i]) == Some(k + i) {
      GenNamesAt(k, |names|, i);
      GensymIdGen(k + i);
    }
  }

  lemma QuoteIsNotGenerated()
    ensures GensymId("quote").None?
  {
  }

  /** All names of e are below the first free one, if those that were not looked at are. */
  lemma NamesBelow(e: Node, k: nat)
    requires Below(Seen(e), k)
    ensures Below(Names(e), k) <==> Below(Hidden(e), k)
  {
    QuoteIsNotGenerated();
    forall x ensures x != "quote" ==> (x in Names(e) <==> x in Seen(e) || x in Hidden(e)) {
      NamesSplit(e, x);
    }
    if Below(Names(e), k) {
      forall i | 0 <= i < |Hidden(e)| && GensymId(Hidden(e)[i]).Some? ensures IsGen(Hidden(e)[i], k) {
        var x := Hidden(e)[i];
        assert x in Names(e);
        var j :| 0 <= j < |Names(e)| && Names(e)[j] == x;
      }
    }
    if Below(Hidden(e), k) {
      forall i | 0 <= i < |Names(e)| && GensymId(Names(e)[i]).Some? ensures IsGen(Names(e)[i], k) {
        var x := Names(e)[i];
        if x in Seen(e) {
          var j :| 0 <= j < |Seen(e)| && Seen(e)[j] == x;
        } else {
          var j :| 0 <= j < |Hidden(e)| && Hidden(e)[j] == x;
        }
      }
    }
  }

  /** Alpha conversion of a closed program: the same expression but for names, all of its binders pairwise
      different.  They are newer than every generated name in the program if and only if the generated names
      among the formals that were not looked at are older than the first free name. */
  lemma AlphaConverted(e: Node)
    ensures AlphaConvert(e).Some? <==> Closed(e, [])
    ensures Closed(e, []) ==>
            var names := Bound(AlphaConvert(e).value);
            && DeBruijn(AlphaConvert(e).value, []) == DeBruijn(e, [])
            && (forall i, j :: 0 <= i < j < |names| ==> names[i] != names[j])
            && Newer(names, Seen(e))
            && (Newer(names, Names(e)) <==> Below(Hidden(e), FirstFree(e)))
  {
    var k := FirstFree(e);
    var env: map<Symbol, Symbol> := map[];
    ClosedConverts(e, env, k, k, [], []);
    if !Closed(e, []) { return; }
    AlphaEquivalent(e, env, k, k, [], []);
    Numbered(e);
    MaxIdBounds(e, 0);
    NamesBelow(e, k);
    var names := Bound(AlphaConvert(e).value);
    forall i, xs | 0 <= i < |names| && Below(xs, k) ensures Below(xs, GensymId(names[i]).value) {
      BelowMore(xs, k, k + i);
    }
    if Newer(names, Names(e)) {
      NamesSplit(e, "");
      if names == [] {
        assert Hidden(e) == [];
      } else {
        assert Below(Names(e), GensymId(names[0]).value);
      }
    }
  }

  lemma BelowMore(xs: seq<Symbol>, k: nat, k': nat)
    requires Below(xs, k) && k <= k'
    ensures Below(xs, k')
  {
    forall i | 0 <= i < |xs| && GensymId(xs[i]).Some? ensures IsGen(xs[i], k') {
      assert IsGen(xs[i], k);
    }
  }

  /** No formal is named `quote`. */
  predicate NoQuote(e: Node) {
    "quote" !in Bound(e)
  }

  lemma {:induction false} NothingHidden(e: Node)
    requires NoQuote(e)
    ensures Hidden(e) == []
  {
    match e
    case Value(_) =>
    case Var(_) =>
    case Lambda(_, fs, b) =>
      NoFormalHidden(fs);
      NothingHidden(b);
    case Call(f, es) =>
      NothingHidden(f);
      NothingListHidden(es);
    case Values(es) => NothingListHidden(es);
    case ValuesApply(a, b) =>
      NothingHidden(a);
      NothingHidden(b);
    case Ifeq(a, b, y, n) =>
      NothingHidden(a);
      NothingHidden(b);
      NothingHidden(y);
      NothingHidden(n);
    case Either(a, b) =>
      NothingHidden(a);
      NothingHidden(b);
  }

  lemma {:induction false} NothingListHidden(es: seq<Node>)
    requires "quote" !in BoundList(es)
    ensures HiddenList(es) == []
  {
    if es != [] {
      NothingHidden(es[0]);
      NothingListHidden(es[1..]);
    }
  }

  lemma {:induction false} NoFormalHidden(fs: seq<Symbol>)
    requires "quote" !in fs
    ensures HiddenFormals(fs) == []
  {
    if fs != [] { NoFormalHidden(fs[1..]); }
  }

  /** Without a formal named `quote` the new binders are newer than every generated name in the program. */
  lemma AllNewer(e: Node)
    requires Closed(e, []) && NoQuote(e)
    ensures AlphaConvert(e).Some? && Newer(Bound(AlphaConvert(e).value), Names(e))
  {
    AlphaConverted(e);
    NothingHidden(e);
  }

  /** (lambda (quote g1) 0): g1 is not looked at, and is used again. */
  lemma HiddenNameReused()
    ensures var e := Lambda(true, ["quote", "g1"], Value(Ast.Num(0)));
            && Closed(e, []) && FirstFree(e) == 1 && Hidden(e) == ["g1"]
            && AlphaConvert(e).Some? && Bound(AlphaConvert(e).value) == ["g1", "g2"]
  {
    var e, fs := Lambda(true, ["quote", "g1"], Value(Ast.Num(0))), ["quote", "g1"];
    assert MaxFormals(fs, 0) == 0 && fs[1..] == ["g1"];
    assert Render(1) == ['1'] && Render(2) == ['2'];
    assert Gen(1) == "g1" && Gen(2) == "g2";
    assert GenNames(1, 2) == [Gen(1)] + GenNames(2, 1) && GenNames(2, 1) == [Gen(2)] + GenNames(3, 0);
    var env: map<Symbol, Symbol> := BindFormals(map[], fs, GenNames(1, 2));
    assert Alpha(e.body, env, 3) == Some((e.body, 3));
  }

  // ---- Converting once more would begin above ----

  lemma {:induction false} BinderSeen(e: Node, x: Symbol)
    requires NoQuote(e) && x in Bound(e)
    ensures x in Seen(e)
  {
    match e
    case Lambda(_, fs, b) => if x in fs { FormalSeen(fs, x); } else { BinderSeen(b, x); }
    case Call(f, es) => if x in Bound(f) { BinderSeen(f, x); } else { BinderListSeen(es, x); }
    case Values(es) => BinderListSeen(es, x);
    case ValuesApply(a, b) => if x in Bound(a) { BinderSeen(a, x); } else { BinderSeen(b, x); }
    case Ifeq(a, b, y, n) =>
      if x in Bound(a) { BinderSeen(a, x); }
      else if x in Bound(b) { BinderSeen(b, x); }
      else if x in Bound(y) { BinderSeen(y, x); }
      else { BinderSeen(n, x); }
    case Either(a, b) => if x in Bound(a) { BinderSeen(a, x); } else { BinderSeen(b, x); }
  }

  lemma {:induction false} BinderListSeen(es: seq<Node>, x: Symbol)
    requires "quote" !in BoundList(es) && x in BoundList(es)
    ensures x in SeenList(es)
  {
    if x in Bound(es[0]) { BinderSeen(es[0], x); } else { BinderListSeen(es[1..], x); }
  }

  lemma {:induction false} FormalSeen(fs: seq<Symbol>, x: Symbol)
    requires "quote" !in fs && x in fs
    ensures x in SeenFormals(fs)
  {
    if x != fs[0] { FormalSeen(fs[1..], x); }
  }

  /** The first free name of a converted program is newer than its binders: no formal of it is named `quote`. */
  lemma ConvertedBelow(e: Node)
    requires Closed(e, [])
    ensures AlphaConvert(e).Some?
    ensures var d := AlphaConvert(e).value;
            forall i :: 0 <= i < |Bound(d)| ==>
                   GensymId(Bound(d)[i]).Some? && GensymId(Bound(d)[i]).value < FirstFree(d)
  {
    Numbered(e);
    QuoteIsNotGenerated();
    var d := AlphaConvert(e).value;
    MaxIdBounds(d, 0);
    forall i | 0 <= i < |Bound(d)| ensures GensymId(Bound(d)[i]).Some? && GensymId(Bound(d)[i]).value < FirstFree(d) {
      BinderSeen(d, Bound(d)[i]);
      var j :| 0 <= j < |Seen(d)| && Seen(d)[j] == Bound(d)[i];
      assert IsGen(Seen(d)[j], FirstFree(d));
    }
  }
}
