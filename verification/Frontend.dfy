/** From a program with its own names to closed code: alpha, CPS and closure conversion one after the other. */
module Frontend {
  import opened Lists
  import opened Wrappers
  import opened Ast
  import opened Cps
  import A = Alpha
  import C = Closure
  import M = Middle

  // ---- What a program means, whatever its names are ----

  datatype Meaning = Datum(c: Const) | Procedure(env: seq<Meaning>, arity: nat, body: A.Nameless)

  function SameMeaning(v: Meaning, w: Meaning): Option<bool> {
    if v.Procedure? && w.Procedure? then None else Some(v == w)
  }

  function Data(vs: seq<Meaning>): Option<seq<int>> {
    if vs == [] then Some([])
    else
      var rest := Data(vs[1..]);
      if vs[0].Datum? && vs[0].c.Num? && rest.Some? then Some([vs[0].c.n] + rest.value) else None
  }

  /** Call by value with lexical scope: a variable is the place of its binder, and the environment a list. */
  function Means(delta: Delta, n: nat, t: A.Nameless, env: seq<Meaning>): Option<Meaning>
    decreases n, 0
  {
    if n == 0 then None
    else match t
      case NValue(c) => Some(Datum(c))
      case NBound(i) => if i < |env| then Some(env[i]) else None
      case NLambda(exact, arity, b) => if exact then Some(Procedure(env, arity, b)) else None
      case NIfeq(a, b, y, no) =>
        var va, vb := Means(delta, n - 1, a, env), Means(delta, n - 1, b, env);
        if va.None? || vb.None? then None
        else
          var same := SameMeaning(va.value, vb.value);
          if same.None? then None else Means(delta, n - 1, if same.value then y else no, env)
      case NCall(f, es) =>
        var vf, vs := Means(delta, n - 1, f, env), MeanAll(delta, n - 1, es, env);
        if vf.None? || vs.None? then None
        else (match vf.value
          case Procedure(cenv, arity, b) =>
            if arity != |vs.value| then None else Means(delta, n - 1, b, Reversed(vs.value) + cenv)
          case Datum(Op(op)) =>
            var ns := Data(vs.value);
            if ns.None? || delta(op, ns.value).None? then None else Some(Datum(Num(delta(op, ns.value).value)))
          case Datum(Num(_)) => None)
      case _ => None
  }

  function MeanAll(delta: Delta, n: nat, es: seq<A.Nameless>, env: seq<Meaning>): Option<seq<Meaning>>
    decreases n, |es| + 1
  {
    if es == [] then Some([])
    else
      var v, rest := Means(delta, n, es[0], env), MeanAll(delta, n, es[1..], env);
      if v.None? || rest.None? then None else Some([v.value] + rest.value)
  }

  // ---- Names do not matter ----

  /** An expression with its variables replaced by the places of their binders. */
  function Lexical(e: Exp, scope: seq<nat>): A.Nameless {
    match e
    case Value(c) => A.NValue(c)
    case Var(x) => if A.Find(scope, x) < |scope| then A.NBound(A.Find(scope, x)) else A.NFree(A.Gen(x))
    case Lambda(fs, b) => A.NLambda(true, |fs|, Lexical(b, Reversed(fs) + scope))
    case Call(f, es) => A.NCall(Lexical(f, scope), LexicalAll(es, scope))
    case Ifeq(a, b, y, n) => A.NIfeq(Lexical(a, scope), Lexical(b, scope), Lexical(y, scope), Lexical(n, scope))
  }

  function LexicalAll(es: seq<Exp>, scope: seq<nat>): seq<A.Nameless> {
    if es == [] then [] else [Lexical(es[0], scope)] + LexicalAll(es[1..], scope)
  }

  function NamesOf(env: Env): seq<nat> {
    match env
    case Empty => []
    case Bind(x, _, rest) => [x] + NamesOf(rest)
  }

  function Strip(v: Val): Meaning
    decreases v, 0
  {
    match v
    case Const(c) => Datum(c)
    case Clo(env, fs, b) => Procedure(StripEnv(env), |fs|, Lexical(b, Reversed(fs) + NamesOf(env)))
  }

  function StripEnv(env: Env): (s: seq<Meaning>)
    ensures |s| == |NamesOf(env)|
    decreases env, 1
  {
    match env
    case Empty => []
    case Bind(_, v, rest) => [Strip(v)] + StripEnv(rest)
  }

  function StripAll(vs: seq<Val>): (s: seq<Meaning>)
    ensures |s| == |vs|
  {
    if vs == [] then [] else [Strip(vs[0])] + StripAll(vs[1..])
  }

  function Stripped(v: Option<Val>): Option<Meaning> {
    if v.None? then None else Some(Strip(v.value))
  }

  function AllStripped(vs: Option<seq<Val>>): Option<seq<Meaning>> {
    if vs.None? then None else Some(StripAll(vs.value))
  }

  lemma {:induction false} LookupStrip(env: Env, x: nat)
    ensures var i := A.Find(NamesOf(env), x);
            Stripped(Lookup(env, x)) == if i < |NamesOf(env)| then Some(StripEnv(env)[i]) else None
  {
    hide A.Find, Strip;
    match env
    case Empty =>
    case Bind(y, v, rest) =>
      A.FindCons(y, NamesOf(rest), x);
      LookupStrip(rest, x);
  }

  lemma {:induction false} BindAllStrip(env: Env, fs: seq<nat>, vs: seq<Val>)
    requires |fs| == |vs|
    ensures NamesOf(BindAll(env, fs, vs)) == Reversed(fs) + NamesOf(env)
    ensures StripEnv(BindAll(env, fs, vs)) == Reversed(StripAll(vs)) + StripEnv(env)
    decreases |fs|
  {
    if fs != [] {
      var env' := Bind(fs[0], vs[0], env);
      BindAllStrip(env', fs[1..], vs[1..]);
      assert Reversed(fs) + NamesOf(env) == Reversed(fs[1..]) + NamesOf(env');
      assert StripAll(vs)[1..] == StripAll(vs[1..]);
      assert Reversed(StripAll(vs)) + StripEnv(env) == Reversed(StripAll(vs[1..])) + StripEnv(env');
    }
  }

  lemma {:induction false} DataNumbers(vs: seq<Val>)
    ensures Data(StripAll(vs)) == Numbers(vs)
  {
    if vs != [] {
      DataNumbers(vs[1..]);
      assert StripAll(vs)[1..] == StripAll(vs[1..]);
    }
  }

  lemma SameStrip(v: Val, w: Val)
    ensures SameMeaning(Strip(v), Strip(w)) == Same(v, w)
  {
  }

  /** An expression with names evaluates to what it means without them, to every depth. */
  lemma {:induction false} NamesDoNotMatter(delta: Delta, n: nat, e: Exp, env: Env)
    ensures Means(delta, n, Lexical(e, NamesOf(env)), StripEnv(env)) == Stripped(Eval(delta, n, e, env))
    decreases n, 0
  {
    hide *;
    if n == 0 || e.Value? || e.Var? || e.Lambda? {
      LeafAlike(delta, n, e, env);
    } else if e.Ifeq? {
      NamesDoNotMatter(delta, n - 1, e.a, env);
      NamesDoNotMatter(delta, n - 1, e.b, env);
      NamesDoNotMatter(delta, n - 1, e.yes, env);
      NamesDoNotMatter(delta, n - 1, e.no, env);
      IfeqAlike(delta, n, e.a, e.b, e.yes, e.no, env);
    } else {
      NamesDoNotMatter(delta, n - 1, e.rator, env);
      NamesDoNotMatterAll(delta, n - 1, e.rands, env);
      var vf, vs := Eval(delta, n - 1, e.rator, env), EvalAll(delta, n - 1, e.rands, env);
      if vf.Some? && vs.Some? { AppliedAlike(delta, n, vf.value, vs.value); }
      CallAlike(delta, n, e.rator, e.rands, env);
    }
  }

  lemma LeafAlike(delta: Delta, n: nat, e: Exp, env: Env)
    requires n == 0 || e.Value? || e.Var? || e.Lambda?
    ensures Means(delta, n, Lexical(e, NamesOf(env)), StripEnv(env)) == Stripped(Eval(delta, n, e, env))
  {
    if e.Var? { LookupStrip(env, e.name); }
  }

  lemma IfeqAlike(delta: Delta, n: nat, a: Exp, b: Exp, y: Exp, no: Exp, env: Env)
    requires n > 0
    requires Means(delta, n - 1, Lexical(a, NamesOf(env)), StripEnv(env)) == Stripped(Eval(delta, n - 1, a, env))
    requires Means(delta, n - 1, Lexical(b, NamesOf(env)), StripEnv(env)) == Stripped(Eval(delta, n - 1, b, env))
    requires Means(delta, n - 1, Lexical(y, NamesOf(env)), StripEnv(env)) == Stripped(Eval(delta, n - 1, y, env))
    requires Means(delta, n - 1, Lexical(no, NamesOf(env)), StripEnv(env)) == Stripped(Eval(delta, n - 1, no, env))
    ensures Means(delta, n, Lexical(Ifeq(a, b, y, no), NamesOf(env)), StripEnv(env))
         == Stripped(Eval(delta, n, Ifeq(a, b, y, no), env))
  {
    var va, vb := Eval(delta, n - 1, a, env), Eval(delta, n - 1, b, env);
    var vy, vn := Eval(delta, n - 1, y, env), Eval(delta, n - 1, no, env);
    LexicalIfeq(a, b, y, no, NamesOf(env));
    EvalIfeq(delta, n, a, b, y, no, env);
    hide *;
    var scope := NamesOf(env);
    MeansIfeq(delta, n, Lexical(a, scope), Lexical(b, scope), Lexical(y, scope), Lexical(no, scope), StripEnv(env));
    ChosenStrip(va, vb, vy, vn);
  }

  lemma LexicalIfeq(a: Exp, b: Exp, y: Exp, no: Exp, scope: seq<nat>)
    ensures Lexical(Ifeq(a, b, y, no), scope)
         == A.NIfeq(Lexical(a, scope), Lexical(b, scope), Lexical(y, scope), Lexical(no, scope))
  {
  }

  /** What an ifeq comes to, for what its parts come to. */
  function Chosen(va: Option<Meaning>, vb: Option<Meaning>, vy: Option<Meaning>, vn: Option<Meaning>): Option<Meaning> {
    if va.None? || vb.None? then None
    else
      var same := SameMeaning(va.value, vb.value);
      if same.None? then None else if same.value then vy else vn
  }

  function ChosenVal(va: Option<Val>, vb: Option<Val>, vy: Option<Val>, vn: Option<Val>): Option<Val> {
    if va.None? || vb.None? then None
    else
      var same := Same(va.value, vb.value);
      if same.None? then None else if same.value then vy else vn
  }

  lemma MeansIfeq(delta: Delta, n: nat, a: A.Nameless, b: A.Nameless, y: A.Nameless, no: A.Nameless, env: seq<Meaning>)
    requires n > 0
    ensures Means(delta, n, A.NIfeq(a, b, y, no), env)
         == Chosen(Means(delta, n - 1, a, env), Means(delta, n - 1, b, env), Means(delta, n - 1, y, env),
                   Means(delta, n - 1, no, env))
  {
  }

  lemma EvalIfeq(delta: Delta, n: nat, a: Exp, b: Exp, y: Exp, no: Exp, env: Env)
    requires n > 0
    ensures Eval(delta, n, Ifeq(a, b, y, no), env)
         == ChosenVal(Eval(delta, n - 1, a, env), Eval(delta, n - 1, b, env), Eval(delta, n - 1, y, env),
                      Eval(delta, n - 1, no, env))
  {
  }

  lemma ChosenStrip(va: Option<Val>, vb: Option<Val>, vy: Option<Val>, vn: Option<Val>)
    ensures Chosen(Stripped(va), Stripped(vb), Stripped(vy), Stripped(vn)) == Stripped(ChosenVal(va, vb, vy, vn))
  {
    if va.Some? && vb.Some? { SameStrip(va.value, vb.value); }
    hide Strip, Same, SameMeaning;
  }

  lemma CallAlike(delta: Delta, n: nat, f: Exp, es: seq<Exp>, env: Env)
    requires n > 0
    requires Means(delta, n - 1, Lexical(f, NamesOf(env)), StripEnv(env)) == Stripped(Eval(delta, n - 1, f, env))
    requires MeanAll(delta, n - 1, LexicalAll(es, NamesOf(env)), StripEnv(env))
          == AllStripped(EvalAll(delta, n - 1, es, env))
    requires var vf, vs := Eval(delta, n - 1, f, env), EvalAll(delta, n - 1, es, env);
             vf.Some? && vs.Some? ==> ApplyAlike(delta, n, vf.value, vs.value)
    ensures Means(delta, n, Lexical(Call(f, es), NamesOf(env)), StripEnv(env))
         == Stripped(Eval(delta, n, Call(f, es), env))
  {
    hide StripEnv, NamesOf, Numbers, Data, StripAll, BindAll;
  }

  /** A call of f and of what it means come to the same. */
  ghost predicate ApplyAlike(delta: Delta, n: nat, f: Val, vs: seq<Val>)
    requires n > 0
  {
    && Data(StripAll(vs)) == Numbers(vs)
    && (f.Clo? && |f.formals| == |vs| ==>
          Means(delta, n - 1, Lexical(f.body, Reversed(f.formals) + NamesOf(f.env)),
                Reversed(StripAll(vs)) + StripEnv(f.env))
          == Stripped(Eval(delta, n - 1, f.body, BindAll(f.env, f.formals, vs))))
  }

  lemma {:induction false} NamesDoNotMatterAll(delta: Delta, n: nat, es: seq<Exp>, env: Env)
    ensures MeanAll(delta, n, LexicalAll(es, NamesOf(env)), StripEnv(env)) == AllStripped(EvalAll(delta, n, es, env))
    decreases n, |es| + 1
  {
    if es != [] {
      NamesDoNotMatter(delta, n, es[0], env);
      NamesDoNotMatterAll(delta, n, es[1..], env);
      assert LexicalAll(es, NamesOf(env))[1..] == LexicalAll(es[1..], NamesOf(env));
    }
  }

  lemma {:induction false} AppliedAlike(delta: Delta, n: nat, f: Val, vs: seq<Val>)
    requires n > 0
    ensures ApplyAlike(delta, n, f, vs)
    decreases n - 1, 1
  {
    DataNumbers(vs);
    if f.Clo? && |f.formals| == |vs| {
      BindAllStrip(f.env, f.formals, vs);
      NamesDoNotMatter(delta, n - 1, f.body, BindAll(f.env, f.formals, vs));
    }
  }

  // ---- Converted programs, with numbers for names ----

  /** The forms of programs that are followed through CPS conversion. */
  predicate Covered(e: A.Node) {
    match e
    case Value(_) => true
    case Var(_) => true
    case Lambda(exact, _, b) => exact && Covered(b)
    case Call(f, es) => Covered(f) && CoveredAll(es) && !(f.Value? && f.val.Op? && f.val.op in {32, 49})
    case Ifeq(a, b, y, n) => Covered(a) && Covered(b) && Covered(y) && Covered(n) && Operand(a) && Operand(b)
    case _ => false
  }

  predicate CoveredAll(es: seq<A.Node>) {
    es == [] || (Covered(es[0]) && CoveredAll(es[1..]))
  }

  predicate Operand(e: A.Node) {
    e.Value? || e.Var? || e.Call?
  }

  /** The number of a generated name. */
  function Id(s: Symbol): nat {
    var id := A.GensymId(s);
    if id.Some? then id.value else 0
  }

  function Ids(names: seq<Symbol>): (r: seq<nat>)
    ensures |r| == |names| && forall i :: 0 <= i < |r| ==> r[i] == Id(names[i])
  {
    if names == [] then [] else [Id(names[0])] + Ids(names[1..])
  }

  function Numbered(e: A.Node): Exp
    requires Covered(e)
  {
    match e
    case Value(c) => Value(c)
    case Var(s) => Var(Id(s))
    case Lambda(_, fs, b) => Lambda(Ids(fs), Numbered(b))
    case Call(f, es) => Call(Numbered(f), AllNumbered(es))
    case Ifeq(a, b, y, n) => Ifeq(Numbered(a), Numbered(b), Numbered(y), Numbered(n))
  }

  function AllNumbered(es: seq<A.Node>): (r: seq<Exp>)
    requires CoveredAll(es)
    ensures |r| == |es|
  {
    if es == [] then [] else [Numbered(es[0])] + AllNumbered(es[1..])
  }

  lemma {:induction false} CoveredKept(e: A.Node, env: map<Symbol, Symbol>, k: nat)
    requires Covered(e) && A.Alpha(e, env, k).Some?
    ensures Covered(A.Alpha(e, env, k).value.0)
    ensures Operand(e) ==> Operand(A.Alpha(e, env, k).value.0)
  {
    match e
    case Value(_) =>
    case Var(_) =>
    case Lambda(_, fs, b) => CoveredKept(b, A.BindFormals(env, fs, A.GenNames(k, |fs|)), k + |fs|);
    case Call(f, es) =>
      CoveredKept(f, env, k);
      CoveredAllKept(es, env, A.Alpha(f, env, k).value.1);
    case Ifeq(a, b, y, n) =>
      CoveredKept(a, env, k);
      var k1 := A.Alpha(a, env, k).value.1;
      CoveredKept(b, env, k1);
      var k2 := A.Alpha(b, env, k1).value.1;
      CoveredKept(y, env, k2);
      CoveredKept(n, env, A.Alpha(y, env, k2).value.1);
  }

  lemma {:induction false} CoveredAllKept(es: seq<A.Node>, env: map<Symbol, Symbol>, k: nat)
    requires CoveredAll(es) && A.AlphaList(es, env, k).Some?
    ensures CoveredAll(A.AlphaList(es, env, k).value.0)
  {
    if es != [] {
      CoveredKept(es[0], env, k);
      var r := A.Alpha(es[0], env, k).value;
      CoveredAllKept(es[1..], env, r.1);
      var rs := A.AlphaList(es[1..], env, r.1).value;
      assert ([r.0] + rs.0)[1..] == rs.0;
    }
  }

  lemma {:induction false} NumberedProper(e: A.Node)
    requires Covered(e)
    ensures Proper(Numbered(e))
  {
    match e
    case Value(_) =>
    case Var(_) =>
    case Lambda(_, _, b) => NumberedProper(b);
    case Call(f, es) =>
      NumberedProper(f);
      AllNumberedProper(es);
    case Ifeq(a, b, y, n) =>
      NumberedProper(a);
      NumberedProper(b);
      NumberedProper(y);
      NumberedProper(n);
  }

  lemma {:induction false} AllNumberedProper(es: seq<A.Node>)
    requires CoveredAll(es)
    ensures ProperAll(AllNumbered(es))
  {
    if es != [] {
      NumberedProper(es[0]);
      AllNumberedProper(es[1..]);
      assert AllNumbered(es)[1..] == AllNumbered(es[1..]);
    }
  }

  lemma IdsOver(fs: seq<Symbol>, scope: seq<Symbol>)
    ensures Ids(Reversed(fs) + scope) == Reversed(Ids(fs)) + Ids(scope)
  {
    hide Ids, Reversed, Id;
    var all, ids := Reversed(fs) + scope, Reversed(Ids(fs)) + Ids(scope);
    forall i | 0 <= i < |all| ensures Ids(all)[i] == ids[i] {
      assert i >= |fs| ==> all[i] == scope[i - |fs|];
    }
  }

  lemma PlaceKept(env: map<Symbol, Symbol>, scope: seq<Symbol>, scope': seq<Symbol>, k: nat, x: Symbol)
    requires A.Follows(env, scope, scope', k) && x in env
    ensures A.Find(Ids(scope'), Id(env[x])) == A.Find(scope, x) < |scope'| == |scope|
  {
    var i := A.Find(scope, x);
    forall j | 0 <= j < i ensures Ids(scope')[j] != Ids(scope')[i] {
      assert A.IsGen(scope'[j], k) && A.IsGen(scope'[i], k);
    }
    A.FindOnly(Ids(scope'), i);
  }

  /** Conversion leaves every variable with its binder, also when names are just numbers. */
  lemma {:induction false} NumberedSame(e: A.Node, env: map<Symbol, Symbol>, k: nat, k0: nat, scope: seq<Symbol>,
          scope': seq<Symbol>)
    requires A.Follows(env, scope, scope', k0) && k0 <= k && Covered(e) && A.Alpha(e, env, k).Some?
    ensures Covered(A.Alpha(e, env, k).value.0) && k <= A.Alpha(e, env, k).value.1
    ensures Lexical(Numbered(A.Alpha(e, env, k).value.0), Ids(scope')) == A.DeBruijn(e, scope)
    decreases e, 1
  {
    hide A.Follows, A.Find;
    CoveredKept(e, env, k);
    A.AlphaEquivalent(e, env, k, k0, scope, scope');
    match e
    case Value(_) =>
    case Var(x) =>
      PlaceKept(env, scope, scope', k0, x);
      A.FollowsVar(env, scope, scope', k0, x);
    case Lambda(_, _, _) =>
      hide *;
      LambdaSame(e, env, k, k0, scope, scope');
    case Call(f, es) =>
      NumberedSame(f, env, k, k0, scope, scope');
      AllNumberedSame(es, env, A.Alpha(f, env, k).value.1, k0, scope, scope');
    case Ifeq(_, _, _, _) =>
      hide *;
      IfeqSame(e, env, k, k0, scope, scope');
  }

  lemma {:induction false} LambdaSame(e: A.Node, env: map<Symbol, Symbol>, k: nat, k0: nat, scope: seq<Symbol>,
          scope': seq<Symbol>)
    requires A.Follows(env, scope, scope', k0) && k0 <= k && Covered(e) && A.Alpha(e, env, k).Some?
    requires e.Lambda? && Covered(A.Alpha(e, env, k).value.0)
    ensures Lexical(Numbered(A.Alpha(e, env, k).value.0), Ids(scope')) == A.DeBruijn(e, scope)
    decreases e, 0
  {
    hide *;
    var fs, names := e.formals, A.GenNames(k, |e.formals|);
    var inner, over, over' := A.BindFormals(env, fs, names), Reversed(fs) + scope, Reversed(names) + scope';
    AlphaLambda(e, env, k);
    var d := A.Alpha(e.body, inner, k + |fs|).value.0;
    LexicalLambda(names, d, scope');
    LambdaDeBruijn(e, scope);
    A.FollowsMore(env, scope, scope', k0, k);
    A.FollowsFormals(env, scope, scope', k, fs);
    NumberedSame(e.body, inner, k + |fs|, k + |fs|, over, over');
  }

  lemma AlphaLambda(e: A.Node, env: map<Symbol, Symbol>, k: nat)
    requires e.Lambda? && Covered(e) && A.Alpha(e, env, k).Some? && Covered(A.Alpha(e, env, k).value.0)
    ensures var names := A.GenNames(k, |e.formals|);
            var r := A.Alpha(e.body, A.BindFormals(env, e.formals, names), k + |e.formals|);
            && r.Some? && Covered(r.value.0) && Covered(e.body)
            && A.Alpha(e, env, k).value.0 == A.Lambda(true, names, r.value.0)
  {
  }

  lemma LexicalLambda(names: seq<Symbol>, d: A.Node, scope: seq<Symbol>)
    requires Covered(d)
    ensures Covered(A.Lambda(true, names, d))
    ensures Lexical(Numbered(A.Lambda(true, names, d)), Ids(scope))
         == A.NLambda(true, |names|, Lexical(Numbered(d), Ids(Reversed(names) + scope)))
  {
    IdsOver(names, scope);
    hide Reversed, Ids;
  }

  lemma LambdaDeBruijn(e: A.Node, scope: seq<Symbol>)
    requires e.Lambda? && Covered(e)
    ensures A.DeBruijn(e, scope) == A.NLambda(true, |e.formals|, A.DeBruijn(e.body, Reversed(e.formals) + scope))
  {
  }

  lemma {:induction false} IfeqSame(e: A.Node, env: map<Symbol, Symbol>, k: nat, k0: nat, scope: seq<Symbol>,
          scope': seq<Symbol>)
    requires A.Follows(env, scope, scope', k0) && k0 <= k && Covered(e) && A.Alpha(e, env, k).Some?
    requires e.Ifeq? && Covered(A.Alpha(e, env, k).value.0)
    ensures Lexical(Numbered(A.Alpha(e, env, k).value.0), Ids(scope')) == A.DeBruijn(e, scope)
    decreases e, 0
  {
    hide A.Follows, A.Find;
    NumberedSame(e.a, env, k, k0, scope, scope');
    var k1 := A.Alpha(e.a, env, k).value.1;
    NumberedSame(e.b, env, k1, k0, scope, scope');
    var k2 := A.Alpha(e.b, env, k1).value.1;
    NumberedSame(e.yes, env, k2, k0, scope, scope');
    NumberedSame(e.no, env, A.Alpha(e.yes, env, k2).value.1, k0, scope, scope');
  }

  lemma {:induction false} AllNumberedSame(es: seq<A.Node>, env: map<Symbol, Symbol>, k: nat, k0: nat,
          scope: seq<Symbol>, scope': seq<Symbol>)
    requires A.Follows(env, scope, scope', k0) && k0 <= k && CoveredAll(es) && A.AlphaList(es, env, k).Some?
    ensures CoveredAll(A.AlphaList(es, env, k).value.0) && k <= A.AlphaList(es, env, k).value.1
    ensures LexicalAll(AllNumbered(A.AlphaList(es, env, k).value.0), Ids(scope')) == A.DeBruijnList(es, scope)
    decreases es, 0
  {
    if es != [] {
      NumberedSame(es[0], env, k, k0, scope, scope');
      var r := A.Alpha(es[0], env, k).value;
      AllNumberedSame(es[1..], env, r.1, k0, scope, scope');
      var rs := A.AlphaList(es[1..], env, r.1).value;
      OneMore(r.0, rs.0, Ids(scope'));
    }
  }

  lemma OneMore(d: A.Node, ds: seq<A.Node>, scope: seq<nat>)
    requires Covered(d) && CoveredAll(ds)
    ensures CoveredAll([d] + ds) && AllNumbered([d] + ds) == [Numbered(d)] + AllNumbered(ds)
    ensures LexicalAll(AllNumbered([d] + ds), scope)
         == [Lexical(Numbered(d), scope)] + LexicalAll(AllNumbered(ds), scope)
  {
    assert ([d] + ds)[1..] == ds;
    assert ([Numbered(d)] + AllNumbered(ds))[1..] == AllNumbered(ds);
  }

  // ---- The names are as CPS conversion wants them ----

  predicate Between(names: set<nat>, lo: nat, hi: nat) {
    forall x :: x in names ==> lo <= x < hi
  }

  lemma {:induction false} NewFormals(k: nat, n: nat)
    ensures var ids := Ids(A.GenNames(k, n));
            (forall i :: 0 <= i < n ==> ids[i] == k + i) && Distinct(ids) && Between(Elems(ids), k, k + n)
  {
    var ids := Ids(A.GenNames(k, n));
    forall i | 0 <= i < n ensures ids[i] == k + i {
      A.GenNamesAt(k, n, i);
      A.GensymIdGen(k + i);
    }
  }

  /** e binds names once, from lo up to hi. */
  predicate Binds(e: Exp, lo: nat, hi: nat) {
    lo <= hi && Unique(e) && Between(Binders(e), lo, hi)
  }

  lemma LambdaBinds(fs: seq<nat>, b: Exp, k: nat, k1: nat, k2: nat)
    requires k <= k1 && Distinct(fs) && Between(Elems(fs), k, k1) && Binds(b, k1, k2)
    ensures Binds(Lambda(fs, b), k, k2)
  {
  }

  lemma CallBinds(f: Exp, es: seq<Exp>, k: nat, k1: nat, k2: nat)
    requires Binds(f, k, k1) && k1 <= k2 && UniqueAll(es) && Between(BindersAll(es), k1, k2)
    ensures Binds(Call(f, es), k, k2)
  {
  }

  lemma IfeqBinds(a: Exp, b: Exp, y: Exp, n: Exp, k: nat, k1: nat, k2: nat, k3: nat, k4: nat)
    requires Binds(a, k, k1) && Binds(b, k1, k2) && Binds(y, k2, k3) && Binds(n, k3, k4)
    ensures Binds(Ifeq(a, b, y, n), k, k4)
  {
  }

  /** Each binder has a number of its own, from k on. */
  lemma {:induction false} NumberedUnique(e: A.Node, env: map<Symbol, Symbol>, k: nat)
    requires Covered(e) && A.Alpha(e, env, k).Some? && Covered(A.Alpha(e, env, k).value.0)
    ensures Binds(Numbered(A.Alpha(e, env, k).value.0), k, A.Alpha(e, env, k).value.1)
  {
    match e
    case Value(_) =>
    case Var(_) =>
    case Lambda(_, fs, b) =>
      var names := A.GenNames(k, |fs|);
      NumberedUnique(b, A.BindFormals(env, fs, names), k + |fs|);
      NewFormals(k, |fs|);
      var r := A.Alpha(b, A.BindFormals(env, fs, names), k + |fs|).value;
      hide Binds;
      LambdaBinds(Ids(names), Numbered(r.0), k, k + |fs|, r.1);
    case Call(f, es) =>
      NumberedUnique(f, env, k);
      var r := A.Alpha(f, env, k).value;
      AllNumberedUnique(es, env, r.1);
      var rs := A.AlphaList(es, env, r.1).value;
      hide Binds;
      CallBinds(Numbered(r.0), AllNumbered(rs.0), k, r.1, rs.1);
    case Ifeq(a, b, y, n) =>
      hide Binds;
      NumberedUnique(a, env, k);
      var a' := A.Alpha(a, env, k).value;
      NumberedUnique(b, env, a'.1);
      var b' := A.Alpha(b, env, a'.1).value;
      NumberedUnique(y, env, b'.1);
      var y' := A.Alpha(y, env, b'.1).value;
      NumberedUnique(n, env, y'.1);
      var n' := A.Alpha(n, env, y'.1).value;
      IfeqBinds(Numbered(a'.0), Numbered(b'.0), Numbered(y'.0), Numbered(n'.0), k, a'.1, b'.1, y'.1, n'.1);
  }

  lemma {:induction false} AllNumberedUnique(es: seq<A.Node>, env: map<Symbol, Symbol>, k: nat)
    requires CoveredAll(es) && A.AlphaList(es, env, k).Some? && CoveredAll(A.AlphaList(es, env, k).value.0)
    ensures var (ds, k') := A.AlphaList(es, env, k).value;
            k <= k' && UniqueAll(AllNumbered(ds)) && Between(BindersAll(AllNumbered(ds)), k, k')
  {
    if es != [] {
      var r := A.Alpha(es[0], env, k).value;
      var rs := A.AlphaList(es[1..], env, r.1).value;
      assert ([r.0] + rs.0)[1..] == rs.0;
      NumberedUnique(es[0], env, k);
      AllNumberedUnique(es[1..], env, r.1);
      OneMore(r.0, rs.0, []);
      assert ([Numbered(r.0)] + AllNumbered(rs.0))[1..] == AllNumbered(rs.0);
    }
  }

  /** A variable that is nowhere bound would have no place. */
  predicate Placed(t: A.Nameless) {
    match t
    case NFree(_) => false
    case NLambda(_, _, b) => Placed(b)
    case NCall(f, es) => Placed(f) && AllPlaced(es)
    case NIfeq(a, b, y, n) => Placed(a) && Placed(b) && Placed(y) && Placed(n)
    case _ => true
  }

  predicate AllPlaced(ts: seq<A.Nameless>) {
    ts == [] || (Placed(ts[0]) && AllPlaced(ts[1..]))
  }

  lemma {:induction false} ClosedPlaced(e: A.Node, scope: seq<Symbol>)
    requires Covered(e) && A.Closed(e, scope)
    ensures Placed(A.DeBruijn(e, scope))
  {
    match e
    case Value(_) =>
    case Var(_) =>
    case Lambda(_, fs, b) => ClosedPlaced(b, Reversed(fs) + scope);
    case Call(f, es) =>
      ClosedPlaced(f, scope);
      AllClosedPlaced(es, scope);
    case Ifeq(a, b, y, n) =>
      ClosedPlaced(a, scope);
      ClosedPlaced(b, scope);
      ClosedPlaced(y, scope);
      ClosedPlaced(n, scope);
  }

  lemma {:induction false} AllClosedPlaced(es: seq<A.Node>, scope: seq<Symbol>)
    requires CoveredAll(es) && A.ClosedList(es, scope)
    ensures AllPlaced(A.DeBruijnList(es, scope))
  {
    if es != [] {
      ClosedPlaced(es[0], scope);
      AllClosedPlaced(es[1..], scope);
      assert A.DeBruijnList(es, scope)[1..] == A.DeBruijnList(es[1..], scope);
    }
  }

  lemma {:induction false} PlacedFree(e: Exp, scope: seq<nat>)
    requires Placed(Lexical(e, scope))
    ensures Free(e) <= Elems(scope)
  {
    match e
    case Value(_) =>
    case Var(x) => assert x == scope[A.Find(scope, x)];
    case Lambda(fs, b) =>
      PlacedFree(b, Reversed(fs) + scope);
      forall x | x in Elems(Reversed(fs) + scope) ensures x in Elems(fs) || x in Elems(scope) {
        var i :| 0 <= i < |fs| + |scope| && (Reversed(fs) + scope)[i] == x;
        assert x == if i < |fs| then fs[|fs| - 1 - i] else scope[i - |fs|];
      }
    case Call(f, es) =>
      PlacedFree(f, scope);
      AllPlacedFree(es, scope);
    case Ifeq(a, b, y, n) =>
      PlacedFree(a, scope);
      PlacedFree(b, scope);
      PlacedFree(y, scope);
      PlacedFree(n, scope);
  }

  lemma {:induction false} AllPlacedFree(es: seq<Exp>, scope: seq<nat>)
    requires AllPlaced(LexicalAll(es, scope))
    ensures FreeAll(es) <= Elems(scope)
  {
    if es != [] {
      assert LexicalAll(es, scope)[1..] == LexicalAll(es[1..], scope);
      PlacedFree(es[0], scope);
      AllPlacedFree(es[1..], scope);
    }
  }

  /** A converted program is what CPS conversion can take, with the first name that it would generate; and it is
      the same program. */
  lemma ConvertedScoped(e: A.Node)
    requires Covered(e) && A.Closed(e, [])
    ensures A.AlphaConvert(e).Some? && Covered(A.AlphaConvert(e).value)
    ensures var d := A.AlphaConvert(e).value;
            Scoped(Numbered(d), {}, A.FirstFree(d)) && Lexical(Numbered(d), []) == A.DeBruijn(e, [])
  {
    var k := A.FirstFree(e);
    var env: map<Symbol, Symbol> := map[];
    A.ClosedConverts(e, env, k, k, [], []);
    NumberedSame(e, env, k, k, [], []);
    NumberedUnique(e, env, k);
    var d, k' := A.AlphaConvert(e).value, A.Alpha(e, env, k).value.1;
    NumberedProper(d);
    ClosedPlaced(e, []);
    PlacedFree(Numbered(d), []);
    A.BoundIsNew(e, env, k);
    A.ConvertedBelow(e);
    hide A.Alpha, A.AlphaConvert, A.FirstFree, Proper, Unique, Binders, Free, Covered, Numbered, Lexical, A.DeBruijn;
    GeneratedBelow(A.Bound(d), k, k', A.FirstFree(d));
  }

  lemma GeneratedBelow(names: seq<Symbol>, k: nat, k': nat, free: nat)
    requires A.Fills(names, k, k')
    requires forall i :: 0 <= i < |names| ==> A.GensymId(names[i]).Some? && A.GensymId(names[i]).value < free
    ensures k == k' || k' <= free
  {
    if k < k' {
      A.GenNamesAt(k, k' - k, k' - k - 1);
      A.GensymIdGen(k' - 1);
      assert names[k' - k - 1] == A.Gen(k' - 1);
    }
  }

  // ---- The whole front end ----

  /** What a meaning has become after all three conversions. */
  ghost predicate Became(v: Meaning, w: C.Val) {
    exists u :: Strip(u) == v && M.Became(u, w)
  }

  /** The three conversions, for closed programs: each takes its first new name as the compiler does. */
  function Converted(e: A.Node): Option<C.Lit> {
    var d := A.AlphaConvert(e);
    if d.None? || !Covered(d.value) then None
    else C.Build(M.In(CpsProgram(Numbered(d.value), A.FirstFree(d.value))))
  }

  /** A closed program that means a value, by lexical scope and call by value, is converted to code without free
      variables that passes what the value has become to its continuation. */
  lemma FrontendRuns(delta: Delta, n: nat, e: A.Node) returns (m: nat, w: C.Val)
    requires Covered(e) && A.Closed(e, []) && Means(delta, n, A.DeBruijn(e, []), []).Some?
    ensures Became(Means(delta, n, A.DeBruijn(e, []), []).value, w)
    ensures forall c :: Means(delta, n, A.DeBruijn(e, []), []) == Some(Datum(c)) ==> w == C.Imm(M.ConstIn(c))
    ensures Converted(e).Some? && Converted(e).value.Code?
    ensures var built, k := Converted(e).value, C.Imm(C.Num(0));
            C.Steps(delta, m, C.Ap(C.Clo(C.Empty, built.code, built.lits), [k])) == Some(C.Ap(k, [w]))
  {
    ConvertedScoped(e);
    var d := A.AlphaConvert(e).value;
    NamesDoNotMatter(delta, n, Numbered(d), Empty);
    m, w := M.BothRun(delta, n, Numbered(d), A.FirstFree(d));
    assert Strip(Eval(delta, n, Numbered(d), Empty).value) == Means(delta, n, A.DeBruijn(e, []), []).value;
  }
}
