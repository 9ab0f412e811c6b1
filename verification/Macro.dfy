/** Macro rules: matching a pattern against a form, and rewriting with what was matched. */
module Macro {
  import opened Lists
  import opened Wrappers

  datatype Sexp = Sym(name: Symbol) | Nil | Atom(id: nat) | Pair(car: Sexp, cdr: Sexp)

  datatype Binding = Binding(key: Symbol, vals: seq<Sexp>)

  /** An association list: the first binding of a key counts. */
  type Dict = seq<Binding>

  /** Broken: the value of a variable is asked for which has none. */
  datatype Outcome = Matched(dict: Dict) | Failed | Broken

  function Get(d: Dict, key: Symbol): (vals: Option<seq<Sexp>>)
    ensures vals.Some? <==> key in Keys(d)
  {
    if d == [] then None
    else if d[0].key == key then Some(d[0].vals)
    else Get(d[1..], key)
  }

  function Keys(d: Dict): set<Symbol> {
    if d == [] then {} else {d[0].key} + Keys(d[1..])
  }

  function SymbolsOf(e: Sexp, found: seq<Symbol>): (r: seq<Symbol>)
    ensures forall x :: x in found ==> x in r
  {
    match e
    case Pair(a, b) => SymbolsOf(b, SymbolsOf(a, found))
    case Sym(x) => if x in found then found else [x] + found
    case _ => found
  }

  // ---- Matching ----

  /** init-variables */
  function Init(keys: seq<Symbol>, d: Dict): (r: Dict)
    ensures Keys(r) == Elems(keys) + Keys(d)
    decreases |keys|
  {
    if keys == [] then d else Init(keys[1..], [Binding(keys[0], [])] + d)
  }

  function Push(d: Dict, key: Symbol, val: Sexp): (r: Dict)
    requires key in Keys(d)
    ensures Keys(r) == Keys(d)
  {
    if d[0].key == key then [Binding(key, d[0].vals + [val])] + d[1..]
    else [d[0]] + Push(d[1..], key, val)
  }

  predicate IsEllipsis(p: Sexp) {
    p.Pair? && p.cdr.Pair? && p.cdr.car == Sym("...")
  }

  /** What a pattern can bind. */
  function Vars(p: Sexp, lits: set<Symbol>): set<Symbol> {
    match p
    case Sym(x) => if x == "_" || x in lits then {} else {x}
    case Pair(a, b) => if IsEllipsis(p) then Vars(a, lits) + Vars(b.cdr, lits) else Vars(a, lits) + Vars(b, lits)
    case _ => {}
  }

  /** match-pattern; `collect` inside the pattern before an ellipsis. */
  function Match(p: Sexp, lits: set<Symbol>, f: Sexp, collect: bool, d: Dict): (r: Outcome)
    requires collect ==> Vars(p, lits) <= Keys(d)
    ensures r.Matched? ==> Keys(d) <= Keys(r.dict)
    decreases p, 1, f
  {
    match p
    case Sym(x) =>
      if x == "_" then Matched(d)
      else if x in lits then if f == p then Matched(d) else Failed
      else if collect then Matched(Push(d, x, f))
      else
        var binding := Get(d, x);
        if binding.None? then Matched([Binding(x, [f])] + d)
        else if binding.value == [] then Broken
        else if binding.value[0] == f then Matched(d)
        else Failed
    case Nil => if f.Nil? then Matched(d) else Failed
    case Atom(_) => if f == p then Matched(d) else Failed
    case Pair(a, b) =>
      if IsEllipsis(p) then
        InitHas(a, lits);
        Repeat(a, b.cdr, lits, f, Init(Bound(a, lits), d))
      else if f.Pair? then
        var first := Match(a, lits, f.car, collect, d);
        if first.Matched? then Match(b, lits, f.cdr, collect, first.dict) else first
      else Failed
  }

  /** The variables of an ellipsis body, as they are put in the dictionary. */
  function Bound(a: Sexp, lits: set<Symbol>): seq<Symbol> {
    Without(SymbolsOf(a, []), lits)
  }

  function Without(s: seq<Symbol>, lits: set<Symbol>): (r: seq<Symbol>)
    ensures forall x :: x in r <==> x in s && x !in lits
  {
    if s == [] then [] else (if s[0] in lits then [] else [s[0]]) + Without(s[1..], lits)
  }

  /** Items for the body `a` and then a match for what follows: as few items as will do. */
  function Repeat(a: Sexp, rest: Sexp, lits: set<Symbol>, f: Sexp, d: Dict): (r: Outcome)
    requires Vars(a, lits) <= Keys(d)
    ensures r.Matched? ==> Keys(d) <= Keys(r.dict)
    decreases Pair(a, Pair(Sym("..."), rest)), 0, f
  {
    if f.Pair? then
      var done := Match(rest, lits, f, false, d);
      if !done.Failed? then done
      else
        var one := Match(a, lits, f.car, true, d);
        if one.Broken? then Broken
        else if one.Failed? then Match(rest, lits, f, false, d)
        else Repeat(a, rest, lits, f.cdr, one.dict)
    else Match(rest, lits, f, false, d)
  }

  lemma {:induction false} SymbolsHave(a: Sexp, lits: set<Symbol>, found: seq<Symbol>)
    ensures forall x :: x in Vars(a, lits) ==> x in SymbolsOf(a, found)
  {
    if a.Pair? {
      SymbolsHave(a.car, lits, found);
      if IsEllipsis(a) {
        var found1 := SymbolsOf(a.cdr.car, SymbolsOf(a.car, found));
        SymbolsHave(a.cdr.cdr, lits, found1);
      } else {
        SymbolsHave(a.cdr, lits, SymbolsOf(a.car, found));
      }
    }
  }

  lemma VarsNotLits(a: Sexp, lits: set<Symbol>)
    ensures Vars(a, lits) !! lits
  {
  }

  lemma InitHas(a: Sexp, lits: set<Symbol>)
    ensures Vars(a, lits) <= Elems(Bound(a, lits))
  {
    SymbolsHave(a, lits, []);
    VarsNotLits(a, lits);
  }

  /** try-pattern */
  function TryPattern(p: Sexp, lits: set<Symbol>, f: Sexp): Outcome {
    Match(p, lits, f, false, [])
  }

  // ---- Rewriting ----

  function Insert(n: nat, s: seq<nat>): seq<nat> {
    if s == [] || n <= s[0] then [n] + s else [s[0]] + Insert(n, s[1..])
  }

  function Sorted(s: seq<nat>): seq<nat> {
    if s == [] then [] else Insert(s[0], Sorted(s[1..]))
  }

  function Lengths(d: Dict): seq<nat> {
    if d == [] then [] else [|d[0].vals|] + Lengths(d[1..])
  }

  function FirstLong(opts: seq<nat>, best: nat): nat
    decreases |opts|
  {
    if opts == [] then best
    else if opts[0] == 1 then FirstLong(opts[1..], 1)
    else opts[0]
  }

  /** repetition-length */
  function Repetitions(d: Dict): nat {
    FirstLong(Sorted(Lengths(d)), 0)
  }

  /** pop-ellipsis; a variable without values is an error, which never comes up after Repetitions. */
  function Pop(d: Dict): Dict {
    if d == [] then []
    else [if |d[0].vals| <= 1 then d[0] else Binding(d[0].key, d[0].vals[1..])] + Pop(d[1..])
  }

  /** The bindings of some keys. */
  function Only(d: Dict, keys: seq<Symbol>): Dict {
    if d == [] then [] else (if d[0].key in keys then [d[0]] else []) + Only(d[1..], keys)
  }

  function Rewrite(d: Dict, t: Sexp): Sexp
    decreases t, 1, 0
  {
    match t
    case Sym(x) =>
      var vals := Get(d, x);
      if vals.Some? && vals.value != [] then vals.value[0] else t
    case Pair(a, b) =>
      if IsEllipsis(t) then
        var own := Only(d, SymbolsOf(a, []));
        Copies(own, a, Repetitions(own), d, b.cdr)
      else Pair(Rewrite(d, a), Rewrite(d, b))
    case _ => t
  }

  /** n copies of a, with one value after the other from own, and then the rest. */
  function Copies(own: Dict, a: Sexp, n: nat, d: Dict, rest: Sexp): Sexp
    decreases Pair(a, Pair(Sym("..."), rest)), 0, n
  {
    if n == 0 then Rewrite(d, rest) else Pair(Rewrite(own, a), Copies(Pop(own), a, n - 1, d, rest))
  }

  // ---- Patterns that can be undone ----

  predicate Flat(p: Sexp) {
    p.Pair? ==> !IsEllipsis(p) && Flat(p.car) && Flat(p.cdr)
  }

  predicate NoWildcard(p: Sexp) {
    match p
    case Sym(x) => x != "_"
    case Pair(a, b) => NoWildcard(a) && NoWildcard(b)
    case _ => true
  }

  /** No variable is repeated. */
  predicate Linear(p: Sexp, lits: set<Symbol>) {
    p.Pair? ==> Linear(p.car, lits) && Linear(p.cdr, lits) && Vars(p.car, lits) !! Vars(p.cdr, lits)
  }

  /** The variables under an ellipsis. */
  function Many(p: Sexp, lits: set<Symbol>): set<Symbol> {
    if !p.Pair? then {}
    else if IsEllipsis(p) then Vars(p.car, lits) + Many(p.cdr.cdr, lits)
    else Many(p.car, lits) + Many(p.cdr, lits)
  }

  /** Ellipses are not nested, and variables under them are not repeated; others may be. */
  predicate Regular(p: Sexp, lits: set<Symbol>) {
    p.Pair? ==>
      if IsEllipsis(p) then
        && Flat(p.car) && Linear(p.car, lits)
        && Regular(p.cdr.cdr, lits) && Vars(p.car, lits) !! Vars(p.cdr.cdr, lits)
      else
        && Regular(p.car, lits) && Regular(p.cdr, lits)
        && Many(p.car, lits) !! Vars(p.cdr, lits) && Vars(p.car, lits) !! Many(p.cdr, lits)
  }

  // ---- Dictionaries ----

  predicate DistinctKeys(d: Dict) {
    d == [] || (d[0].key !in Keys(d[1..]) && DistinctKeys(d[1..]))
  }

  /** d' has what d has. */
  predicate Extends(d': Dict, d: Dict) {
    Keys(d) <= Keys(d') && forall k :: k in Keys(d) ==> Get(d', k) == Get(d, k)
  }

  lemma {:induction false} PushIs(d: Dict, key: Symbol, val: Sexp, k: Symbol)
    requires key in Keys(d)
    ensures Get(Push(d, key, val), k) == if k == key then Some(Get(d, k).value + [val]) else Get(d, k)
    ensures DistinctKeys(d) ==> DistinctKeys(Push(d, key, val))
  {
    if d[0].key != key {
      PushIs(d[1..], key, val, k);
      assert Push(d, key, val)[1..] == Push(d[1..], key, val);
    } else {
      assert Push(d, key, val)[1..] == d[1..];
    }
  }

  lemma {:induction false} InitIs(keys: seq<Symbol>, d: Dict, k: Symbol)
    ensures Get(Init(keys, d), k) == if k in keys then Some([]) else Get(d, k)
    decreases |keys|
  {
    if keys != [] {
      var d1 := [Binding(keys[0], [])] + d;
      assert d1[1..] == d;
      InitIs(keys[1..], d1, k);
    }
  }

  lemma {:induction false} InitDistinct(keys: seq<Symbol>, d: Dict)
    requires NoDup(keys) && DistinctKeys(d) && Elems(keys) !! Keys(d)
    ensures DistinctKeys(Init(keys, d))
    decreases |keys|
  {
    if keys != [] {
      var d1 := [Binding(keys[0], [])] + d;
      assert d1[1..] == d && keys[0] in Elems(keys);
      assert Elems(keys[1..]) <= Elems(keys);
      InitDistinct(keys[1..], d1);
    }
  }

  lemma {:induction false} SymbolsNoDup(a: Sexp, found: seq<Symbol>)
    requires NoDup(found)
    ensures NoDup(SymbolsOf(a, found))
  {
    if a.Pair? {
      SymbolsNoDup(a.car, found);
      SymbolsNoDup(a.cdr, SymbolsOf(a.car, found));
    } else if a.Sym? && a.name !in found {
      assert ([a.name] + found)[1..] == found;
    }
  }

  lemma {:induction false} WithoutNoDup(s: seq<Symbol>, lits: set<Symbol>)
    requires NoDup(s)
    ensures NoDup(Without(s, lits))
  {
    if s != [] {
      WithoutNoDup(s[1..], lits);
      var rest := Without(s[1..], lits);
      if s[0] in lits {
        assert Without(s, lits) == rest;
      } else {
        assert ([s[0]] + rest)[1..] == rest;
      }
    }
  }

  /** In a flat pattern without wildcards the symbols are literals and variables. */
  lemma {:induction false} FlatSymbols(a: Sexp, lits: set<Symbol>, found: seq<Symbol>, x: Symbol)
    requires Flat(a) && NoWildcard(a)
    ensures x in SymbolsOf(a, found) && x !in lits ==> x in found || x in Vars(a, lits)
  {
    if a.Pair? {
      FlatSymbols(a.cdr, lits, SymbolsOf(a.car, found), x);
      FlatSymbols(a.car, lits, found, x);
    }
  }

  lemma BoundIs(a: Sexp, lits: set<Symbol>)
    requires Flat(a) && NoWildcard(a)
    ensures Elems(Bound(a, lits)) == Vars(a, lits) && NoDup(Bound(a, lits))
  {
    InitHas(a, lits);
    SymbolsNoDup(a, []);
    WithoutNoDup(SymbolsOf(a, []), lits);
    forall x | x in Elems(Bound(a, lits)) ensures x in Vars(a, lits) {
      FlatSymbols(a, lits, [], x);
    }
  }

  // ---- What a body matches ----

  /** d' is d with one more value for each of some variables. */
  predicate Gains(d: Dict, d': Dict, vars: set<Symbol>) {
    && Keys(d') == Keys(d)
    && (forall k :: k in Keys(d) && k !in vars ==> Get(d', k) == Get(d, k))
    && (forall k :: k in vars && k in Keys(d) ==>
          |Get(d', k).value| == |Get(d, k).value| + 1 && Get(d, k).value <= Get(d', k).value)
  }

  /** The newest values of the variables, first in `own`. */
  predicate Newest(own: Dict, d: Dict, vars: set<Symbol>) {
    forall k :: k in vars ==>
      && k in Keys(own) && k in Keys(d) && |Get(d, k).value| > 0
      && Get(own, k).value != [] && Get(own, k).value[0] == Get(d, k).value[|Get(d, k).value|-1]
  }

  lemma {:induction false} BodyGains(a: Sexp, lits: set<Symbol>, f: Sexp, d: Dict)
    requires Flat(a) && Linear(a, lits) && Vars(a, lits) <= Keys(d) && Match(a, lits, f, true, d).Matched?
    ensures Gains(d, Match(a, lits, f, true, d).dict, Vars(a, lits))
    ensures DistinctKeys(d) ==> DistinctKeys(Match(a, lits, f, true, d).dict)
  {
    match a
    case Sym(x) =>
      if x != "_" && x !in lits {
        forall k ensures Get(Push(d, x, f), k) == if k == x then Some(Get(d, k).value + [f]) else Get(d, k) {
          PushIs(d, x, f, k);
        }
        PushIs(d, x, f, x);
      }
    case Pair(b, c) =>
      var d1 := Match(b, lits, f.car, true, d).dict;
      BodyGains(b, lits, f.car, d);
      BodyGains(c, lits, f.cdr, d1);
    case _ =>
  }

  lemma NewestEarlier(own: Dict, d1: Dict, d2: Dict, vars: set<Symbol>, more: set<Symbol>)
    requires Gains(d1, d2, more) && vars !! more && vars <= Keys(d1) && Newest(own, d2, vars + more)
    ensures Newest(own, d1, vars)
  {
    hide Get, Keys;
    forall k | k in vars
      ensures k in Keys(own) && k in Keys(d1) && |Get(d1, k).value| > 0
      ensures Get(own, k).value != [] && Get(own, k).value[0] == Get(d1, k).value[|Get(d1, k).value|-1]
    {
      assert k in vars + more && Get(d2, k) == Get(d1, k);
      assert Get(own, k).value != [];
    }
  }

  /** Rewriting a body with the values it has just matched gives what it matched. */
  lemma {:induction false} BodyUndone(a: Sexp, lits: set<Symbol>, f: Sexp, d: Dict, own: Dict)
    requires Flat(a) && Linear(a, lits) && NoWildcard(a) && Vars(a, lits) <= Keys(d)
    requires Match(a, lits, f, true, d).Matched? && Newest(own, Match(a, lits, f, true, d).dict, Vars(a, lits))
    requires Keys(own) !! lits
    ensures Rewrite(own, a) == f
  {
    match a
    case Sym(x) => if x !in lits { PushIs(d, x, f, x); assert Get(own, x).Some?; }
    case Pair(b, c) =>
      var d1 := Match(b, lits, f.car, true, d).dict;
      BodyGains(b, lits, f.car, d);
      BodyGains(c, lits, f.cdr, d1);
      var d2 := Match(c, lits, f.cdr, true, d1).dict;
      NewestEarlier(own, d1, d2, Vars(b, lits), Vars(c, lits));
      BodyUndone(b, lits, f.car, d, own);
      BodyUndone(c, lits, f.cdr, d1, own);
    case _ =>
  }

  // ---- What a whole pattern matches ----

  /** How many items an ellipsis takes before what follows it is matched. */
  function Items(a: Sexp, rest: Sexp, lits: set<Symbol>, f: Sexp, d: Dict): nat
    requires Vars(a, lits) <= Keys(d)
    decreases f
  {
    if !f.Pair? || !Match(rest, lits, f, false, d).Failed? then 0
    else
      var one := Match(a, lits, f.car, true, d);
      if one.Matched? then 1 + Items(a, rest, lits, f.cdr, one.dict) else 0
  }

  /** d' is d with n more values for each of some variables, and perhaps more keys. */
  predicate GainsMany(d: Dict, d': Dict, vars: set<Symbol>, n: nat) {
    && Keys(d) <= Keys(d')
    && (forall k :: k in Keys(d) && k !in vars ==> Get(d', k) == Get(d, k))
    && (forall k :: k in vars && k in Keys(d) ==>
          |Get(d', k).value| == |Get(d, k).value| + n && Get(d, k).value <= Get(d', k).value)
  }

  lemma GainsThen(d: Dict, d1: Dict, d2: Dict, vars: set<Symbol>, n: nat)
    requires Gains(d, d1, vars) && GainsMany(d1, d2, vars, n)
    ensures GainsMany(d, d2, vars, n + 1)
  {
    hide Get, Keys;
    forall k | k in vars && k in Keys(d)
      ensures |Get(d2, k).value| == |Get(d, k).value| + n + 1 && Get(d, k).value <= Get(d2, k).value
    {
      assert Get(d, k).value <= Get(d1, k).value <= Get(d2, k).value;
    }
    forall k | k in Keys(d) && k !in vars ensures Get(d2, k) == Get(d, k) {
      assert Get(d1, k) == Get(d, k);
    }
  }

  lemma ManyVars(p: Sexp, lits: set<Symbol>)
    ensures Many(p, lits) <= Vars(p, lits)
  {
  }

  /** A dictionary in which a pattern can be matched. */
  predicate Fit(p: Sexp, lits: set<Symbol>, d: Dict) {
    Regular(p, lits) && NoWildcard(p) && DistinctKeys(d) && Many(p, lits) !! Keys(d)
  }

  /** Matching only adds the pattern's own variables. */
  lemma {:induction false} MatchKeeps(p: Sexp, lits: set<Symbol>, f: Sexp, d: Dict)
    requires Fit(p, lits, d) && Match(p, lits, f, false, d).Matched?
    ensures var d' := Match(p, lits, f, false, d).dict;
            Extends(d', d) && Keys(d') == Keys(d) + Vars(p, lits) && DistinctKeys(d')
    decreases p, 1, f
  {
    match p
    case Sym(x) =>
      if x !in lits && Get(d, x).None? {
        var d' := [Binding(x, [f])] + d;
        assert d'[1..] == d;
      }
    case Pair(a, b) =>
      if IsEllipsis(p) {
        EllipsisStart(a, b.cdr, lits, d);
        BoundIs(a, lits);
        var d0 := Init(Bound(a, lits), d);
        RepeatKeeps(a, b.cdr, lits, f, d0);
        var d' := Match(p, lits, f, false, d).dict;
        forall k | k in Keys(d) ensures Get(d', k) == Get(d, k) {
          InitIs(Bound(a, lits), d, k);
          assert k !in Vars(a, lits) && k !in Elems(Bound(a, lits));
        }
      } else {
        var d1 := Match(a, lits, f.car, false, d).dict;
        ManyVars(b, lits);
        MatchKeeps(a, lits, f.car, d);
        MatchKeeps(b, lits, f.cdr, d1);
      }
    case _ =>
  }

  lemma EllipsisStart(a: Sexp, rest: Sexp, lits: set<Symbol>, d: Dict)
    requires var p := Pair(a, Pair(Sym("..."), rest)); Fit(p, lits, d)
    ensures var d0 := Init(Bound(a, lits), d);
            && Keys(d0) == Keys(d) + Vars(a, lits) && Fit(rest, lits, d0)
            && forall k :: k in Vars(a, lits) ==> Get(d0, k) == Some([])
  {
    BoundIs(a, lits);
    assert NoWildcard(Pair(Sym("..."), rest)) && Many(rest, lits) <= Many(Pair(a, Pair(Sym("..."), rest)), lits);
    InitDistinct(Bound(a, lits), d);
    ManyVars(rest, lits);
    forall k | k in Vars(a, lits) ensures Get(Init(Bound(a, lits), d), k) == Some([]) {
      assert k in Elems(Bound(a, lits));
      InitIs(Bound(a, lits), d, k);
    }
  }

  /** An ellipsis can go on from a dictionary. */
  predicate Going(a: Sexp, rest: Sexp, lits: set<Symbol>, d: Dict) {
    && Flat(a) && Linear(a, lits) && NoWildcard(a) && Vars(a, lits) <= Keys(d) && Vars(a, lits) !! Vars(rest, lits)
    && Fit(rest, lits, d)
  }

  lemma {:induction false} RepeatKeeps(a: Sexp, rest: Sexp, lits: set<Symbol>, f: Sexp, d: Dict)
    requires Going(a, rest, lits, d) && Repeat(a, rest, lits, f, d).Matched?
    ensures var d' := Repeat(a, rest, lits, f, d).dict;
            && GainsMany(d, d', Vars(a, lits), Items(a, rest, lits, f, d))
            && Keys(d') == Keys(d) + Vars(rest, lits) && DistinctKeys(d')
    decreases Pair(a, Pair(Sym("..."), rest)), 0, f
  {
    if !f.Pair? || !Match(rest, lits, f, false, d).Failed? {
      MatchKeeps(rest, lits, f, d);
    } else {
      var one := Match(a, lits, f.car, true, d).dict;
      BodyGains(a, lits, f.car, d);
      RepeatKeeps(a, rest, lits, f.cdr, one);
      GainsThen(d, one, Repeat(a, rest, lits, f, d).dict, Vars(a, lits), Items(a, rest, lits, f.cdr, one));
    }
  }

  /** The form without the items that bodies without variables took. */
  function Remains(p: Sexp, lits: set<Symbol>, f: Sexp, d: Dict): Sexp
    requires Match(p, lits, f, false, d).Matched?
    decreases p, 1, f
  {
    if !p.Pair? then f
    else if IsEllipsis(p) then
      InitHas(p.car, lits);
      RemainsFrom(p.car, p.cdr.cdr, lits, f, Init(Bound(p.car, lits), d))
    else
      Pair(Remains(p.car, lits, f.car, d), Remains(p.cdr, lits, f.cdr, Match(p.car, lits, f.car, false, d).dict))
  }

  function RemainsFrom(a: Sexp, rest: Sexp, lits: set<Symbol>, f: Sexp, d: Dict): Sexp
    requires Vars(a, lits) <= Keys(d) && Repeat(a, rest, lits, f, d).Matched?
    decreases Pair(a, Pair(Sym("..."), rest)), 0, f
  {
    if !f.Pair? || !Match(rest, lits, f, false, d).Failed? then Remains(rest, lits, f, d)
    else
      var more := RemainsFrom(a, rest, lits, f.cdr, Match(a, lits, f.car, true, d).dict);
      if Vars(a, lits) == {} then more else Pair(f.car, more)
  }

  /** How many items bodies without variables took. */
  function Blank(p: Sexp, lits: set<Symbol>, f: Sexp, d: Dict): nat
    requires Match(p, lits, f, false, d).Matched?
    decreases p, 1, f
  {
    if !p.Pair? then 0
    else if IsEllipsis(p) then
      InitHas(p.car, lits);
      BlankFrom(p.car, p.cdr.cdr, lits, f, Init(Bound(p.car, lits), d))
    else
      Blank(p.car, lits, f.car, d) + Blank(p.cdr, lits, f.cdr, Match(p.car, lits, f.car, false, d).dict)
  }

  function BlankFrom(a: Sexp, rest: Sexp, lits: set<Symbol>, f: Sexp, d: Dict): nat
    requires Vars(a, lits) <= Keys(d) && Repeat(a, rest, lits, f, d).Matched?
    decreases Pair(a, Pair(Sym("..."), rest)), 0, f
  {
    if !f.Pair? || !Match(rest, lits, f, false, d).Failed? then Blank(rest, lits, f, d)
    else
      (if Vars(a, lits) == {} then 1 else 0) + BlankFrom(a, rest, lits, f.cdr, Match(a, lits, f.car, true, d).dict)
  }

  function Size(f: Sexp): nat {
    if f.Pair? then 1 + Size(f.car) + Size(f.cdr) else 0
  }

  /** Each item that is left out makes a form smaller. */
  lemma {:induction false} RemainsSize(p: Sexp, lits: set<Symbol>, f: Sexp, d: Dict)
    requires Match(p, lits, f, false, d).Matched?
    ensures Size(Remains(p, lits, f, d)) + Blank(p, lits, f, d) <= Size(f)
    ensures Blank(p, lits, f, d) == 0 ==> Remains(p, lits, f, d) == f
    decreases p, 1, f
  {
    if p.Pair? {
      if IsEllipsis(p) {
        InitHas(p.car, lits);
        RemainsFromSize(p.car, p.cdr.cdr, lits, f, Init(Bound(p.car, lits), d));
      } else {
        RemainsSize(p.car, lits, f.car, d);
        RemainsSize(p.cdr, lits, f.cdr, Match(p.car, lits, f.car, false, d).dict);
      }
    }
  }

  lemma {:induction false} RemainsFromSize(a: Sexp, rest: Sexp, lits: set<Symbol>, f: Sexp, d: Dict)
    requires Vars(a, lits) <= Keys(d) && Repeat(a, rest, lits, f, d).Matched?
    ensures Size(RemainsFrom(a, rest, lits, f, d)) + BlankFrom(a, rest, lits, f, d) <= Size(f)
    ensures BlankFrom(a, rest, lits, f, d) == 0 ==> RemainsFrom(a, rest, lits, f, d) == f
    decreases Pair(a, Pair(Sym("..."), rest)), 0, f
  {
    if !f.Pair? || !Match(rest, lits, f, false, d).Failed? {
      RemainsSize(rest, lits, f, d);
    } else {
      RemainsFromSize(a, rest, lits, f.cdr, Match(a, lits, f.car, true, d).dict);
    }
  }

  // ---- Undoing a match ----

  lemma {:induction false} PopIs(d: Dict, k: Symbol)
    ensures Keys(Pop(d)) == Keys(d)
    ensures k in Keys(d) ==>
              Get(Pop(d), k).value == if |Get(d, k).value| <= 1 then Get(d, k).value else Get(d, k).value[1..]
  {
    if d != [] {
      PopIs(d[1..], k);
      assert Pop(d)[1..] == Pop(d[1..]);
    }
  }

  lemma {:induction false} OnlyIs(d: Dict, keys: seq<Symbol>)
    ensures Keys(Only(d, keys)) == Keys(d) * Elems(keys)
    ensures forall k :: k in keys ==> Get(Only(d, keys), k) == Get(d, k)
    ensures DistinctKeys(d) ==> DistinctKeys(Only(d, keys))
  {
    if d != [] {
      OnlyIs(d[1..], keys);
      var rest := Only(d[1..], keys);
      if d[0].key in keys {
        assert d[0].key in Elems(keys);
        assert ([d[0]] + rest)[1..] == rest;
      } else {
        assert Only(d, keys) == rest;
      }
    }
  }

  lemma {:induction false} InsertSame(n: nat, s: seq<nat>)
    requires forall i :: 0 <= i < |s| ==> s[i] == n
    ensures |Insert(n, s)| == |s| + 1 && forall i :: 0 <= i <= |s| ==> Insert(n, s)[i] == n
  {
  }

  lemma {:induction false} SortedSame(s: seq<nat>, n: nat)
    requires forall i :: 0 <= i < |s| ==> s[i] == n
    ensures |Sorted(s)| == |s| && forall i :: 0 <= i < |s| ==> Sorted(s)[i] == n
  {
    if s != [] {
      SortedSame(s[1..], n);
      InsertSame(n, Sorted(s[1..]));
      assert s[0] == n;
    }
  }

  lemma {:induction false} FirstLongSame(s: seq<nat>, n: nat, best: nat)
    requires forall i :: 0 <= i < |s| ==> s[i] == n
    ensures FirstLong(s, best) == if s == [] then best else n
    decreases |s|
  {
    if s != [] && s[0] == 1 { FirstLongSame(s[1..], n, 1); }
  }

  lemma {:induction false} LengthsSame(d: Dict, n: nat)
    requires DistinctKeys(d) && forall k :: k in Keys(d) ==> |Get(d, k).value| == n
    ensures |Lengths(d)| == |d| && forall i :: 0 <= i < |d| ==> Lengths(d)[i] == n
  {
    if d != [] {
      assert |Get(d, d[0].key).value| == n;
      forall k | k in Keys(d[1..]) ensures |Get(d[1..], k).value| == n {
        assert Get(d, k) == Get(d[1..], k);
      }
      LengthsSame(d[1..], n);
    }
  }

  /** When every variable has n values there are n repetitions. */
  lemma RepetitionsSame(d: Dict, n: nat)
    requires d != [] && DistinctKeys(d) && forall k :: k in Keys(d) ==> |Get(d, k).value| == n
    ensures Repetitions(d) == n
  {
    LengthsSame(d, n);
    SortedSame(Lengths(d), n);
    FirstLongSame(Sorted(Lengths(d)), n, 0);
  }

  /** What is left of the values in D for the items still to come. */
  predicate Remaining(own: Dict, D: Dict, d: Dict, vars: set<Symbol>) {
    forall k :: k in vars ==>
      && k in Keys(own) && k in Keys(D) && k in Keys(d) && |Get(d, k).value| < |Get(D, k).value|
      && Get(own, k).value == Get(D, k).value[|Get(d, k).value|..]
  }

  /** A dictionary that has all that was found in the end. */
  predicate Final(D: Dict, d: Dict, lits: set<Symbol>) {
    Extends(D, d) && DistinctKeys(D) && Keys(D) !! lits
  }

  lemma {:induction false} MatchUndone(p: Sexp, lits: set<Symbol>, f: Sexp, d: Dict, D: Dict)
    requires Fit(p, lits, d) && Match(p, lits, f, false, d).Matched? && Final(D, Match(p, lits, f, false, d).dict, lits)
    ensures Rewrite(D, p) == Remains(p, lits, f, d)
    decreases p, 1, f
  {
    match p
    case Sym(x) =>
      if x !in lits {
        var d' := Match(p, lits, f, false, d).dict;
        assert Get(D, x) == Get(d', x);
      }
    case Pair(a, b) =>
      if IsEllipsis(p) {
        EllipsisUndone(a, b.cdr, lits, f, d, D);
      } else {
        var d1 := Match(a, lits, f.car, false, d).dict;
        ManyVars(b, lits);
        MatchKeeps(a, lits, f.car, d);
        MatchKeeps(b, lits, f.cdr, d1);
        FinalEarlier(D, d1, Match(b, lits, f.cdr, false, d1).dict, lits);
        MatchUndone(a, lits, f.car, d, D);
        MatchUndone(b, lits, f.cdr, d1, D);
      }
    case _ =>
  }

  lemma FinalEarlier(D: Dict, d1: Dict, d2: Dict, lits: set<Symbol>)
    requires Final(D, d2, lits) && Extends(d2, d1)
    ensures Final(D, d1, lits)
  {
    hide Get, Keys;
    forall k | k in Keys(d1) ensures Get(D, k) == Get(d1, k) {
      assert Get(d2, k) == Get(d1, k);
    }
  }

  lemma {:induction false} EllipsisUndone(a: Sexp, rest: Sexp, lits: set<Symbol>, f: Sexp, d: Dict, D: Dict)
    requires var p := Pair(a, Pair(Sym("..."), rest));
             Fit(p, lits, d) && Match(p, lits, f, false, d).Matched? && Final(D, Match(p, lits, f, false, d).dict, lits)
    ensures Rewrite(D, Pair(a, Pair(Sym("..."), rest))) == Remains(Pair(a, Pair(Sym("..."), rest)), lits, f, d)
    decreases Pair(a, Pair(Sym("..."), rest)), 0, f, 1
  {
    hide Match, Repeat, Rewrite, Copies, Linear, Flat, Regular, Remains, RemainsFrom;
    var p, vars := Pair(a, Pair(Sym("..."), rest)), Vars(a, lits);
    EllipsisStart(a, rest, lits, d);
    var d0 := Init(Bound(a, lits), d);
    EllipsisIs(a, rest, lits, f, d);
    RepeatKeeps(a, rest, lits, f, d0);
    var own, n := Only(D, SymbolsOf(a, [])), Items(a, rest, lits, f, d0);
    EllipsisRewrites(a, rest, D);
    if vars == {} {
      OwnNothing(a, lits, D);
      RepeatDropped(a, rest, lits, f, d0, D);
      return;
    }
    OwnHas(a, lits, D, own);
    forall k | k in vars ensures k in Keys(d0) && Get(own, k) == Get(D, k) && |Get(D, k).value| == n {
      assert Get(D, k) == Get(Repeat(a, rest, lits, f, d0).dict, k);
      assert Get(d0, k) == Some([]);
    }
    RepetitionsSame(own, n);
    RepeatUndone(a, rest, lits, f, d0, D, own);
  }

  lemma EllipsisIs(a: Sexp, rest: Sexp, lits: set<Symbol>, f: Sexp, d: Dict)
    requires var p := Pair(a, Pair(Sym("..."), rest)); Fit(p, lits, d)
    ensures Going(a, rest, lits, Init(Bound(a, lits), d))
    ensures Match(Pair(a, Pair(Sym("..."), rest)), lits, f, false, d)
         == Repeat(a, rest, lits, f, Init(Bound(a, lits), d))
    ensures var p := Pair(a, Pair(Sym("..."), rest));
            Match(p, lits, f, false, d).Matched? ==>
              Remains(p, lits, f, d) == RemainsFrom(a, rest, lits, f, Init(Bound(a, lits), d))
  {
    EllipsisStart(a, rest, lits, d);
  }

  lemma EllipsisRewrites(a: Sexp, rest: Sexp, D: Dict)
    ensures var own := Only(D, SymbolsOf(a, []));
            Rewrite(D, Pair(a, Pair(Sym("..."), rest))) == Copies(own, a, Repetitions(own), D, rest)
    ensures Copies([], a, 0, D, rest) == Rewrite(D, rest)
  {
  }

  /** For a body without variables there are no bindings, and so no copies. */
  lemma OwnNothing(a: Sexp, lits: set<Symbol>, D: Dict)
    requires Flat(a) && NoWildcard(a) && Vars(a, lits) == {} && Keys(D) !! lits
    ensures Only(D, SymbolsOf(a, [])) == [] && Repetitions([]) == 0
  {
    var own := Only(D, SymbolsOf(a, []));
    OnlyIs(D, SymbolsOf(a, []));
    if own != [] {
      var k := own[0].key;
      assert k in Keys(own) && k in Keys(D) && k in SymbolsOf(a, []);
      FlatSymbols(a, lits, [], k);
    }
  }

  lemma {:induction false} RepeatDropped(a: Sexp, rest: Sexp, lits: set<Symbol>, f: Sexp, d: Dict, D: Dict)
    requires Going(a, rest, lits, d) && Vars(a, lits) == {} && Repeat(a, rest, lits, f, d).Matched?
    requires Final(D, Repeat(a, rest, lits, f, d).dict, lits)
    ensures Rewrite(D, rest) == RemainsFrom(a, rest, lits, f, d)
    decreases Pair(a, Pair(Sym("..."), rest)), 0, f, 0
  {
    if !f.Pair? || !Match(rest, lits, f, false, d).Failed? {
      MatchUndone(rest, lits, f, d, D);
    } else {
      BodyGains(a, lits, f.car, d);
      RepeatDropped(a, rest, lits, f.cdr, Match(a, lits, f.car, true, d).dict, D);
    }
  }

  /** The bindings that are kept for a body are those of its variables. */
  lemma OwnHas(a: Sexp, lits: set<Symbol>, D: Dict, own: Dict)
    requires Flat(a) && NoWildcard(a) && Vars(a, lits) <= Keys(D) && Keys(D) !! lits && DistinctKeys(D)
    requires own == Only(D, SymbolsOf(a, [])) && Vars(a, lits) != {}
    ensures Keys(own) == Vars(a, lits) && DistinctKeys(own) && own != []
    ensures forall k :: k in Vars(a, lits) ==> Get(own, k) == Get(D, k)
  {
    OnlyIs(D, SymbolsOf(a, []));
    SymbolsHave(a, lits, []);
    forall k | k in Keys(own) ensures k in Vars(a, lits) {
      FlatSymbols(a, lits, [], k);
    }
  }

  lemma {:induction false} RepeatUndone(a: Sexp, rest: Sexp, lits: set<Symbol>, f: Sexp, d: Dict, D: Dict, own: Dict)
    requires Going(a, rest, lits, d) && Repeat(a, rest, lits, f, d).Matched?
          && Final(D, Repeat(a, rest, lits, f, d).dict, lits)
    requires Keys(own) !! lits && (Items(a, rest, lits, f, d) > 0 ==> Remaining(own, D, d, Vars(a, lits)))
    requires Vars(a, lits) != {}
    ensures Copies(own, a, Items(a, rest, lits, f, d), D, rest) == RemainsFrom(a, rest, lits, f, d)
    decreases Pair(a, Pair(Sym("..."), rest)), 0, f, 0
  {
    hide Keys, Get, Remains, Rewrite;
    if !f.Pair? || !Match(rest, lits, f, false, d).Failed? {
      MatchUndone(rest, lits, f, d, D);
    } else {
      var one := Match(a, lits, f.car, true, d).dict;
      BodyGains(a, lits, f.car, d);
      RepeatKeeps(a, rest, lits, f.cdr, one);
      NextValues(own, D, d, one, Repeat(a, rest, lits, f.cdr, one).dict, Vars(a, lits),
                 Items(a, rest, lits, f.cdr, one));
      BodyUndone(a, lits, f.car, d, own);
      PopIs(own, "");
      RepeatUndone(a, rest, lits, f.cdr, one, D, Pop(own));
    }
  }

  lemma NextValues(own: Dict, D: Dict, d: Dict, one: Dict, last: Dict, vars: set<Symbol>, n: nat)
    requires Gains(d, one, vars) && GainsMany(one, last, vars, n) && Extends(D, last) && vars <= Keys(d)
    requires Remaining(own, D, d, vars)
    ensures Newest(own, one, vars) && (n > 0 ==> Remaining(Pop(own), D, one, vars))
  {
    hide Get, Keys;
    forall k | k in vars
      ensures k in Keys(own) && k in Keys(one) && Get(one, k).value <= Get(D, k).value
      ensures |Get(one, k).value| == |Get(d, k).value| + 1 && |Get(D, k).value| == |Get(one, k).value| + n
      ensures Get(own, k).value == Get(D, k).value[|Get(d, k).value|..]
    {
      assert Get(D, k) == Get(last, k) && Get(one, k).value <= Get(last, k).value;
      assert k in Keys(own);
      assert Get(own, k).value == Get(D, k).value[|Get(d, k).value|..];
    }
    if n > 0 {
      forall k | k in vars
        ensures k in Keys(Pop(own)) && |Get(one, k).value| < |Get(D, k).value|
        ensures Get(Pop(own), k).value == Get(D, k).value[|Get(one, k).value|..]
      {
        PopIs(own, k);
        assert |Get(own, k).value| == n + 1;
      }
    }
  }

  /** What rewriting a pattern with what was found in a form gives: the form, without the items that bodies
      without variables took.  So it gives back the form if and only if they took none. */
  lemma MatchThenRewrite(p: Sexp, lits: set<Symbol>, f: Sexp)
    requires Regular(p, lits) && NoWildcard(p) && TryPattern(p, lits, f).Matched?
    ensures Rewrite(TryPattern(p, lits, f).dict, p) == Remains(p, lits, f, [])
    ensures Rewrite(TryPattern(p, lits, f).dict, p) == f <==> Blank(p, lits, f, []) == 0
  {
    MatchKeeps(p, lits, f, []);
    VarsNotLits(p, lits);
    MatchUndone(p, lits, f, [], TryPattern(p, lits, f).dict);
    RemainsSize(p, lits, f, []);
  }

  /** Every body has a variable. */
  predicate Telling(p: Sexp, lits: set<Symbol>) {
    p.Pair? ==>
      if IsEllipsis(p) then Vars(p.car, lits) != {} && Telling(p.cdr.cdr, lits)
      else Telling(p.car, lits) && Telling(p.cdr, lits)
  }

  lemma {:induction false} TellingKeepsAll(p: Sexp, lits: set<Symbol>, f: Sexp, d: Dict)
    requires Telling(p, lits) && Match(p, lits, f, false, d).Matched?
    ensures Blank(p, lits, f, d) == 0
    decreases p, 1, f
  {
    if p.Pair? {
      if IsEllipsis(p) {
        InitHas(p.car, lits);
        TellingKeepsFrom(p.car, p.cdr.cdr, lits, f, Init(Bound(p.car, lits), d));
      } else {
        TellingKeepsAll(p.car, lits, f.car, d);
        TellingKeepsAll(p.cdr, lits, f.cdr, Match(p.car, lits, f.car, false, d).dict);
      }
    }
  }

  lemma {:induction false} TellingKeepsFrom(a: Sexp, rest: Sexp, lits: set<Symbol>, f: Sexp, d: Dict)
    requires Vars(a, lits) != {} && Telling(rest, lits) && Vars(a, lits) <= Keys(d)
    requires Repeat(a, rest, lits, f, d).Matched?
    ensures BlankFrom(a, rest, lits, f, d) == 0
    decreases Pair(a, Pair(Sym("..."), rest)), 0, f
  {
    if !f.Pair? || !Match(rest, lits, f, false, d).Failed? {
      TellingKeepsAll(rest, lits, f, d);
    } else {
      TellingKeepsFrom(a, rest, lits, f.cdr, Match(a, lits, f.car, true, d).dict);
    }
  }

  /** Matching and rewriting undo each other when every body has a variable. */
  lemma RoundTrip(p: Sexp, lits: set<Symbol>, f: Sexp)
    requires Regular(p, lits) && NoWildcard(p) && Telling(p, lits) && TryPattern(p, lits, f).Matched?
    ensures Rewrite(TryPattern(p, lits, f).dict, p) == f
  {
    MatchThenRewrite(p, lits, f);
    TellingKeepsAll(p, lits, f, []);
  }

  // ---- No errors ----

  /** Ellipses are not nested. */
  predicate FlatBodies(p: Sexp) {
    p.Pair? ==> if IsEllipsis(p) then Flat(p.car) && FlatBodies(p.cdr.cdr) else FlatBodies(p.car) && FlatBodies(p.cdr)
  }

  /** Some variable is used plainly after it was used under an ellipsis; `many` are those that were so used
      before. */
  predicate UsedLate(p: Sexp, lits: set<Symbol>, many: set<Symbol>) {
    match p
    case Sym(x) => x in Vars(p, lits) && x in many
    case Pair(a, b) =>
      if IsEllipsis(p) then UsedLate(b.cdr, lits, many + Vars(a, lits))
      else UsedLate(a, lits, many) || UsedLate(b, lits, many + Many(a, lits))
    case _ => false
  }

  /** All but the variables that were used under an ellipsis have a value. */
  predicate Valued(d: Dict, many: set<Symbol>) {
    forall k :: k in Keys(d) && k != "_" && k !in many ==> Get(d, k).value != []
  }

  /** What a body can bind, and the wildcard. */
  lemma {:induction false} BodySymbols(a: Sexp, lits: set<Symbol>, found: seq<Symbol>, x: Symbol)
    requires Flat(a)
    ensures x in SymbolsOf(a, found) && x !in lits ==> x in found || x in Vars(a, lits) || x == "_"
  {
    if a.Pair? {
      BodySymbols(a.cdr, lits, SymbolsOf(a.car, found), x);
      BodySymbols(a.car, lits, found, x);
    }
  }

  lemma InitValued(a: Sexp, lits: set<Symbol>, d: Dict, k: Symbol)
    requires Flat(a) && k in Keys(Init(Bound(a, lits), d)) && k != "_"
    ensures Get(Init(Bound(a, lits), d), k) == if k in Vars(a, lits) then Some([]) else Get(d, k)
    ensures k !in Vars(a, lits) ==> k in Keys(d)
  {
    InitHas(a, lits);
    InitIs(Bound(a, lits), d, k);
    BodySymbols(a, lits, [], k);
    assert k in Vars(a, lits) ==> k in Elems(Bound(a, lits));
  }

  /** Matching a body is never an error, and only adds values. */
  lemma {:induction false} BodyWorks(a: Sexp, lits: set<Symbol>, f: Sexp, d: Dict)
    requires Flat(a) && Vars(a, lits) <= Keys(d)
    ensures !Match(a, lits, f, true, d).Broken?
    ensures Match(a, lits, f, true, d).Matched? ==>
              var d' := Match(a, lits, f, true, d).dict;
              Keys(d') == Keys(d) && forall k :: k in Keys(d) ==> Get(d, k).value <= Get(d', k).value
  {
    match a
    case Sym(x) =>
      if x in Vars(a, lits) {
        forall k | k in Keys(d) ensures Get(d, k).value <= Get(Push(d, x, f), k).value {
          PushIs(d, x, f, k);
        }
      }
    case Pair(b, c) =>
      if f.Pair? {
        BodyWorks(b, lits, f.car, d);
        var first := Match(b, lits, f.car, true, d);
        if first.Matched? {
          BodyWorks(c, lits, f.cdr, first.dict);
          var last := Match(c, lits, f.cdr, true, first.dict);
          if last.Matched? {
            forall k | k in Keys(d) ensures Get(d, k).value <= Get(last.dict, k).value {
              assert Get(d, k).value <= Get(first.dict, k).value <= Get(last.dict, k).value;
            }
          }
        }
      }
    case _ =>
  }

  lemma {:induction false} MatchWorks(p: Sexp, lits: set<Symbol>, f: Sexp, d: Dict, many: set<Symbol>)
    requires FlatBodies(p) && !UsedLate(p, lits, many) && Valued(d, many)
    ensures !Match(p, lits, f, false, d).Broken?
    ensures Match(p, lits, f, false, d).Matched? ==> Valued(Match(p, lits, f, false, d).dict, many + Many(p, lits))
    decreases p, 1, f
  {
    match p
    case Sym(x) =>
      if x in Vars(p, lits) && Get(d, x).None? {
        var d' := [Binding(x, [f])] + d;
        assert d'[1..] == d;
      }
    case Pair(a, b) =>
      if IsEllipsis(p) {
        var d0 := Init(Bound(a, lits), d);
        InitHas(a, lits);
        forall k | k in Keys(d0) && k != "_" && k !in many + Vars(a, lits) ensures Get(d0, k).value != [] {
          InitValued(a, lits, d, k);
        }
        RepeatWorks(a, b.cdr, lits, f, d0, many + Vars(a, lits));
        assert many + Vars(a, lits) + Many(b.cdr, lits) == many + Many(p, lits);
      } else if f.Pair? {
        MatchWorks(a, lits, f.car, d, many);
        var first := Match(a, lits, f.car, false, d);
        if first.Matched? { MatchWorks(b, lits, f.cdr, first.dict, many + Many(a, lits)); }
        assert many + Many(a, lits) + Many(b, lits) == many + Many(p, lits);
      }
    case _ => assert many + Many(p, lits) == many;
  }

  lemma {:induction false} RepeatWorks(a: Sexp, rest: Sexp, lits: set<Symbol>, f: Sexp, d: Dict, many: set<Symbol>)
    requires Flat(a) && Vars(a, lits) <= Keys(d) && FlatBodies(rest) && !UsedLate(rest, lits, many) && Valued(d, many)
    ensures !Repeat(a, rest, lits, f, d).Broken?
    ensures Repeat(a, rest, lits, f, d).Matched? ==> Valued(Repeat(a, rest, lits, f, d).dict, many + Many(rest, lits))
    decreases Pair(a, Pair(Sym("..."), rest)), 0, f
  {
    MatchWorks(rest, lits, f, d, many);
    if f.Pair? {
      BodyWorks(a, lits, f.car, d);
      var one := Match(a, lits, f.car, true, d);
      if one.Matched? {
        forall k | k in Keys(one.dict) && k != "_" && k !in many ensures Get(one.dict, k).value != [] {
          assert Get(d, k).value <= Get(one.dict, k).value;
        }
        RepeatWorks(a, rest, lits, f.cdr, one.dict, many);
      }
    }
  }

  /** A form that fits a pattern with no items for its ellipses. */
  function Emptiest(p: Sexp, lits: set<Symbol>): Sexp {
    match p
    case Sym(x) => if x in Vars(p, lits) then Atom(0) else p
    case Pair(a, b) => if IsEllipsis(p) then Emptiest(b.cdr, lits) else Pair(Emptiest(a, lits), Emptiest(b, lits))
    case _ => p
  }

  /** What matching the emptiest form leaves: nothing for variables under an ellipsis, the same for all others. */
  predicate Emptied(d: Dict, many: set<Symbol>) {
    && many <= Keys(d)
    && forall k :: k in Keys(d) && k != "_" ==>
         if k in many then Get(d, k).value == [] else Get(d, k).value != [] && Get(d, k).value[0] == Atom(0)
  }

  lemma {:induction false} EmptiestMatched(p: Sexp, lits: set<Symbol>, d: Dict, many: set<Symbol>)
    requires FlatBodies(p) && Emptied(d, many)
    ensures var r := Match(p, lits, Emptiest(p, lits), false, d);
            if UsedLate(p, lits, many) then r.Broken? else r.Matched? && Emptied(r.dict, many + Many(p, lits))
  {
    var f := Emptiest(p, lits);
    match p
    case Sym(x) =>
      assert many + Many(p, lits) == many;
      if x in Vars(p, lits) && Get(d, x).None? {
        var d' := [Binding(x, [f])] + d;
        assert d'[1..] == d;
      }
    case Pair(a, b) =>
      if IsEllipsis(p) {
        var d0 := Init(Bound(a, lits), d);
        InitHas(a, lits);
        forall k | k in Keys(d0) && k != "_" ensures
          if k in many + Vars(a, lits) then Get(d0, k).value == []
          else Get(d0, k).value != [] && Get(d0, k).value[0] == Atom(0)
        {
          InitValued(a, lits, d, k);
        }
        EmptiestMatched(b.cdr, lits, d0, many + Vars(a, lits));
        assert many + Vars(a, lits) + Many(b.cdr, lits) == many + Many(p, lits);
      } else {
        EmptiestMatched(a, lits, d, many);
        var first := Match(a, lits, f.car, false, d);
        if first.Matched? { EmptiestMatched(b, lits, first.dict, many + Many(a, lits)); }
        assert many + Many(a, lits) + Many(b, lits) == many + Many(p, lits);
      }
    case _ => assert many + Many(p, lits) == many;
  }

  /** There is a form for which matching is an error if and only if some variable is used plainly after it was
      used under an ellipsis. */
  lemma BreaksExactly(p: Sexp, lits: set<Symbol>)
    requires FlatBodies(p)
    ensures (exists f :: TryPattern(p, lits, f).Broken?) <==> UsedLate(p, lits, {})
  {
    EmptiestMatched(p, lits, [], {});
    if UsedLate(p, lits, {}) {
      assert TryPattern(p, lits, Emptiest(p, lits)).Broken?;
    } else {
      forall f ensures !TryPattern(p, lits, f).Broken? {
        MatchWorks(p, lits, f, [], {});
      }
    }
  }

  /** What is regular has no such variable. */
  lemma {:induction false} RegularWorks(p: Sexp, lits: set<Symbol>, many: set<Symbol>)
    requires Regular(p, lits) && many !! Vars(p, lits)
    ensures FlatBodies(p) && !UsedLate(p, lits, many)
  {
    if p.Pair? {
      if IsEllipsis(p) {
        RegularWorks(p.cdr.cdr, lits, many + Vars(p.car, lits));
      } else {
        ManyVars(p.car, lits);
        RegularWorks(p.car, lits, many);
        RegularWorks(p.cdr, lits, many + Many(p.car, lits));
      }
    }
  }

  /** A regular pattern matches a form or does not; it is never an error. */
  lemma PatternWorks(p: Sexp, lits: set<Symbol>, f: Sexp)
    requires Regular(p, lits)
    ensures !TryPattern(p, lits, f).Broken?
  {
    RegularWorks(p, lits, {});
    BreaksExactly(p, lits);
  }

  // ---- Which forms match ----

  /** f has the form of p: literals and atoms are as in p, and before what follows an ellipsis there may be any number
      of items of the form of its body. */
  predicate Fits(p: Sexp, lits: set<Symbol>, f: Sexp)
    decreases p, 1, f
  {
    match p
    case Sym(x) => x in lits && x != "_" ==> f == p
    case Pair(a, b) =>
      if IsEllipsis(p) then FitsMany(a, b.cdr, lits, f)
      else f.Pair? && Fits(a, lits, f.car) && Fits(b, lits, f.cdr)
    case _ => f == p
  }

  predicate FitsMany(a: Sexp, rest: Sexp, lits: set<Symbol>, f: Sexp)
    decreases Pair(a, Pair(Sym("..."), rest)), 0, f
  {
    Fits(rest, lits, f) || (f.Pair? && Fits(a, lits, f.car) && FitsMany(a, rest, lits, f.cdr))
  }

  /** A body of an ellipsis in which no variable is used plainly after an ellipsis of its own: such a variable has no
      value yet when it is asked for one. */
  predicate BodyOk(a: Sexp, lits: set<Symbol>) {
    a.Pair? ==>
      if IsEllipsis(a) then BodyOk(a.car, lits) && TailOk(a.cdr.cdr, lits)
      else BodyOk(a.car, lits) && BodyOk(a.cdr, lits)
  }

  predicate TailOk(r: Sexp, lits: set<Symbol>) {
    match r
    case Sym(x) => x == "_" || x in lits
    case Pair(a, b) =>
      if IsEllipsis(r) then BodyOk(a, lits) && TailOk(b.cdr, lits) else TailOk(a, lits) && TailOk(b, lits)
    case _ => true
  }

  /** No variable is repeated, nor used plainly after an ellipsis under an ellipsis. */
  predicate Simple(p: Sexp, lits: set<Symbol>) {
    p.Pair? ==>
      if IsEllipsis(p) then
        BodyOk(p.car, lits) && Simple(p.cdr.cdr, lits) && Vars(p.car, lits) !! Vars(p.cdr.cdr, lits)
      else
        Simple(p.car, lits) && Simple(p.cdr, lits) && Vars(p.car, lits) !! Vars(p.cdr, lits)
  }

  /** What an ellipsis binds besides the variables of its body: the wildcard, and the dots of an ellipsis in it. */
  function Stray(flat: bool): set<Symbol> {
    if flat then {"_"} else {"_", "..."}
  }

  /** A match binds the pattern's variables, and perhaps what is stray. */
  predicate Binds(d: Dict, d': Dict, vars: set<Symbol>, flat: bool) {
    Keys(d) <= Keys(d') && Keys(d') <= Keys(d) + vars + Stray(flat)
  }

  lemma {:induction false} AllSymbols(a: Sexp, lits: set<Symbol>, found: seq<Symbol>, x: Symbol)
    ensures x in SymbolsOf(a, found) && x !in lits ==> x in found || x in Vars(a, lits) || x in Stray(false)
  {
    if a.Pair? {
      var found1 := SymbolsOf(a.car, found);
      AllSymbols(a.car, lits, found, x);
      if IsEllipsis(a) {
        var found2 := SymbolsOf(a.cdr.car, found1);
        assert SymbolsOf(a, found) == SymbolsOf(a.cdr, found1) == SymbolsOf(a.cdr.cdr, found2);
        AllSymbols(a.cdr.cdr, lits, found2, x);
      } else {
        AllSymbols(a.cdr, lits, found1, x);
      }
    }
  }

  lemma BoundWithin(a: Sexp, lits: set<Symbol>)
    ensures Elems(Bound(a, lits)) <= Vars(a, lits) + Stray(Flat(a))
  {
    forall x | x in Elems(Bound(a, lits)) ensures x in Vars(a, lits) + Stray(Flat(a)) {
      AllSymbols(a, lits, [], x);
      if Flat(a) { BodySymbols(a, lits, [], x); }
    }
  }

  /** A body is matched just when the form fits, all of its variables being known. */
  lemma {:induction false} BodyFits(a: Sexp, lits: set<Symbol>, f: Sexp, d: Dict)
    requires BodyOk(a, lits) && Vars(a, lits) <= Keys(d)
    ensures var r := Match(a, lits, f, true, d);
            && !r.Broken? && (r.Matched? <==> Fits(a, lits, f))
            && (r.Matched? ==> Binds(d, r.dict, {}, Flat(a)) && (Flat(a) ==> Keys(r.dict) == Keys(d)))
    decreases a, 1, f
  {
    match a
    case Pair(b, c) =>
      if IsEllipsis(a) {
        InitHas(b, lits);
        BoundWithin(b, lits);
        BodyRepeatFits(b, c.cdr, lits, f, Init(Bound(b, lits), d));
      } else if f.Pair? {
        BodyFits(b, lits, f.car, d);
        var first := Match(b, lits, f.car, true, d);
        if first.Matched? { BodyFits(c, lits, f.cdr, first.dict); }
      }
    case _ =>
  }

  lemma {:induction false} TailFits(r: Sexp, lits: set<Symbol>, f: Sexp, d: Dict)
    requires TailOk(r, lits) && Vars(r, lits) <= Keys(d)
    ensures var m := Match(r, lits, f, false, d);
            && !m.Broken? && (m.Matched? <==> Fits(r, lits, f)) && (m.Matched? ==> Binds(d, m.dict, {}, false))
    decreases r, 1, f
  {
    match r
    case Pair(b, c) =>
      if IsEllipsis(r) {
        InitHas(b, lits);
        BoundWithin(b, lits);
        BodyRepeatFits(b, c.cdr, lits, f, Init(Bound(b, lits), d));
      } else if f.Pair? {
        TailFits(b, lits, f.car, d);
        var first := Match(b, lits, f.car, false, d);
        if first.Matched? { TailFits(c, lits, f.cdr, first.dict); }
      }
    case _ =>
  }

  lemma {:induction false} BodyRepeatFits(a: Sexp, rest: Sexp, lits: set<Symbol>, f: Sexp, d: Dict)
    requires BodyOk(a, lits) && TailOk(rest, lits) && Vars(a, lits) + Vars(rest, lits) <= Keys(d)
    ensures var r := Repeat(a, rest, lits, f, d);
            && !r.Broken? && (r.Matched? <==> FitsMany(a, rest, lits, f))
            && (r.Matched? ==> Binds(d, r.dict, {}, false))
    decreases Pair(a, Pair(Sym("..."), rest)), 0, f, 0
  {
    TailFits(rest, lits, f, d);
    if f.Pair? {
      BodyFits(a, lits, f.car, d);
      var one := Match(a, lits, f.car, true, d);
      if one.Matched? { BodyRepeatFits(a, rest, lits, f.cdr, one.dict); }
    }
  }

  lemma {:induction false} MatchFits(p: Sexp, lits: set<Symbol>, f: Sexp, d: Dict)
    requires Simple(p, lits) && Vars(p, lits) !! Keys(d) && Vars(p, lits) !! Stray(FlatBodies(p))
    ensures var r := Match(p, lits, f, false, d);
            && !r.Broken? && (r.Matched? <==> Fits(p, lits, f))
            && (r.Matched? ==> Binds(d, r.dict, Vars(p, lits), FlatBodies(p)))
    decreases p, 1, f
  {
    match p
    case Sym(x) =>
      if x in Vars(p, lits) { assert ([Binding(x, [f])] + d)[1..] == d; }
    case Pair(a, b) =>
      if IsEllipsis(p) {
        var d0 := Init(Bound(a, lits), d);
        InitHas(a, lits);
        BoundWithin(a, lits);
        RepeatFits(a, b.cdr, lits, f, d0, FlatBodies(p));
      } else if f.Pair? {
        MatchFits(a, lits, f.car, d);
        var first := Match(a, lits, f.car, false, d);
        if first.Matched? { MatchFits(b, lits, f.cdr, first.dict); }
      }
    case _ =>
  }

  lemma {:induction false} RepeatFits(a: Sexp, rest: Sexp, lits: set<Symbol>, f: Sexp, d: Dict, flat: bool)
    requires BodyOk(a, lits) && Vars(a, lits) <= Keys(d) && Simple(rest, lits)
    requires Vars(rest, lits) !! Keys(d) && Vars(rest, lits) !! Stray(flat) && (flat ==> Flat(a) && FlatBodies(rest))
    ensures var r := Repeat(a, rest, lits, f, d);
            && !r.Broken? && (r.Matched? <==> FitsMany(a, rest, lits, f))
            && (r.Matched? ==> Binds(d, r.dict, Vars(rest, lits), flat))
    decreases Pair(a, Pair(Sym("..."), rest)), 0, f
  {
    MatchFits(rest, lits, f, d);
    if f.Pair? {
      BodyFits(a, lits, f.car, d);
      var one := Match(a, lits, f.car, true, d);
      if one.Matched? { RepeatFits(a, rest, lits, f.cdr, one.dict, flat); }
    }
  }

  lemma {:induction false} NoWildcardVar(p: Sexp, lits: set<Symbol>)
    ensures "_" !in Vars(p, lits)
  {
    if p.Pair? {
      NoWildcardVar(p.car, lits);
      if IsEllipsis(p) { NoWildcardVar(p.cdr.cdr, lits); } else { NoWildcardVar(p.cdr, lits); }
    }
  }

  /** A pattern that does not repeat variables matches exactly the forms that fit it.  With an ellipsis under an
      ellipsis the dots must not be a variable as well. */
  lemma MatchesExactly(p: Sexp, lits: set<Symbol>, f: Sexp)
    requires Simple(p, lits) && (FlatBodies(p) || "..." !in Vars(p, lits))
    ensures TryPattern(p, lits, f).Matched? <==> Fits(p, lits, f)
    ensures !TryPattern(p, lits, f).Broken?
  {
    NoWildcardVar(p, lits);
    MatchFits(p, lits, f, []);
  }

  // ---- Repeated variables ----

  predicate Plain(p: Sexp) {
    p.Pair? ==> !IsEllipsis(p) && Plain(p.car) && Plain(p.cdr)
  }

  /** f is what p becomes when its variables have these values, and each wildcard one of its own. */
  predicate FitsAs(p: Sexp, lits: set<Symbol>, m: map<Symbol, Sexp>, f: Sexp) {
    match p
    case Sym(x) => x == "_" || if x in lits then f == p else x in m && m[x] == f
    case Pair(a, b) => f.Pair? && FitsAs(a, lits, m, f.car) && FitsAs(b, lits, m, f.cdr)
    case _ => f == p
  }

  ghost predicate FitsSomehow(p: Sexp, lits: set<Symbol>, f: Sexp) {
    exists m :: FitsAs(p, lits, m, f)
  }

  /** The bindings are some of these values. */
  ghost predicate Under(d: Dict, m: map<Symbol, Sexp>) {
    forall x :: x in Keys(d) ==> x in m && Get(d, x) == Some([m[x]])
  }

  ghost predicate OneEach(d: Dict) {
    forall x :: x in Keys(d) ==> |Get(d, x).value| == 1
  }

  lemma GetFirst(x: Symbol, f: Sexp, d: Dict, k: Symbol)
    ensures Get([Binding(x, [f])] + d, k) == if k == x then Some([f]) else Get(d, k)
    ensures Keys([Binding(x, [f])] + d) == {x} + Keys(d)
  {
    assert ([Binding(x, [f])] + d)[1..] == d;
  }

  lemma {:induction false} PlainFits(p: Sexp, lits: set<Symbol>, f: Sexp, d: Dict, m: map<Symbol, Sexp>)
    requires Plain(p) && Under(d, m) && FitsAs(p, lits, m, f)
    ensures Match(p, lits, f, false, d).Matched? && Under(Match(p, lits, f, false, d).dict, m)
  {
    match p
    case Sym(x) =>
      if x != "_" && x !in lits {
        forall k ensures Get([Binding(x, [f])] + d, k) == (if k == x then Some([f]) else Get(d, k)) {
          GetFirst(x, f, d, k);
        }
        GetFirst(x, f, d, x);
      }
    case Pair(a, b) =>
      PlainFits(a, lits, f.car, d, m);
      PlainFits(b, lits, f.cdr, Match(a, lits, f.car, false, d).dict, m);
    case _ =>
  }

  lemma {:induction false} PlainFound(p: Sexp, lits: set<Symbol>, f: Sexp, d: Dict)
    requires Plain(p) && OneEach(d)
    ensures var r := Match(p, lits, f, false, d);
            && !r.Broken?
            && (r.Matched? ==>
                  && OneEach(r.dict) && (forall m :: Under(r.dict, m) ==> FitsAs(p, lits, m, f))
                  && forall x :: x in Keys(d) ==> Get(r.dict, x) == Get(d, x))
  {
    match p
    case Sym(x) =>
      if x != "_" && x !in lits {
        forall k ensures Get([Binding(x, [f])] + d, k) == (if k == x then Some([f]) else Get(d, k)) {
          GetFirst(x, f, d, k);
        }
        GetFirst(x, f, d, x);
      }
    case Pair(a, b) =>
      if f.Pair? {
        PlainFound(a, lits, f.car, d);
        var first := Match(a, lits, f.car, false, d);
        if first.Matched? {
          PlainFound(b, lits, f.cdr, first.dict);
          var second := Match(b, lits, f.cdr, false, first.dict);
          if second.Matched? {
            forall m | Under(second.dict, m) ensures FitsAs(p, lits, m, f) {
              assert Under(first.dict, m);
            }
          }
        }
      }
    case _ =>
  }

  /** A pattern without ellipses matches exactly the forms that it becomes when its variables have values, the same for
      each time that one is used. */
  lemma PlainMatchesExactly(p: Sexp, lits: set<Symbol>, f: Sexp)
    requires Plain(p)
    ensures TryPattern(p, lits, f).Matched? <==> FitsSomehow(p, lits, f)
  {
    if FitsSomehow(p, lits, f) {
      var m :| FitsAs(p, lits, m, f);
      PlainFits(p, lits, f, [], m);
    }
    PlainFound(p, lits, f, []);
    var r := TryPattern(p, lits, f);
    if r.Matched? {
      var m := map x | x in Keys(r.dict) :: Get(r.dict, x).value[0];
      forall x | x in Keys(r.dict) ensures Get(r.dict, x) == Some([m[x]]) {
        assert Get(r.dict, x).value == [m[x]];
      }
      assert FitsAs(p, lits, m, f);
    }
  }

  // ---- How often an ellipsis is rewritten ----

  predicate Ascending(s: seq<nat>) {
    forall i, j :: 0 <= i < j < |s| ==> s[i] <= s[j]
  }

  lemma ConsAscends(n: nat, s: seq<nat>)
    requires Ascending(s) && forall x :: x in s ==> n <= x
    ensures Ascending([n] + s)
  {
    var r := [n] + s;
    forall i, j | 0 <= i < j < |r| ensures r[i] <= r[j] {
      assert r[j] == s[j - 1] && s[j - 1] in s;
      assert i > 0 ==> r[i] == s[i - 1];
    }
  }

  lemma {:induction false} InsertSorts(n: nat, s: seq<nat>)
    requires Ascending(s)
    ensures Ascending(Insert(n, s)) && forall x :: x in Insert(n, s) <==> x == n || x in s
  {
    if s == [] {
    } else if n <= s[0] {
      ConsAscends(n, s);
    } else {
      InsertSorts(n, s[1..]);
      ConsAscends(s[0], Insert(n, s[1..]));
      assert s == [s[0]] + s[1..];
    }
  }

  lemma {:induction false} SortedSorts(s: seq<nat>)
    ensures Ascending(Sorted(s)) && forall x :: x in Sorted(s) <==> x in s
  {
    if s != [] {
      SortedSorts(s[1..]);
      InsertSorts(s[0], Sorted(s[1..]));
    }
  }

  /** In an ascending list: 0 if there is one, else the least above 1, else 1. */
  lemma {:induction false} FirstLongIs(s: seq<nat>, best: nat)
    requires Ascending(s)
    ensures var n := FirstLong(s, best);
            if s == [] then n == best
            else if 0 in s then n == 0
            else if forall x :: x in s ==> x == 1 then n == 1
            else n > 1 && n in s && forall x :: x in s && x > 1 ==> n <= x
    decreases |s|
  {
    if s != [] {
      assert forall x :: x in s ==> s[0] <= x;
      assert s[0] in s && forall x :: x in s <==> x == s[0] || x in s[1..];
      if s[0] == 1 { FirstLongIs(s[1..], 1); }
    }
  }

  lemma {:induction false} LengthsIs(d: Dict, n: nat)
    requires DistinctKeys(d)
    ensures n in Lengths(d) <==> SomeHas(d, n)
    ensures |Lengths(d)| == |d|
  {
    if d != [] {
      LengthsIs(d[1..], n);
      var key, rest := d[0].key, Lengths(d[1..]);
      assert Lengths(d) == [|d[0].vals|] + rest;
      assert n in Lengths(d) <==> n == |d[0].vals| || n in rest;
      assert Get(d, key) == Some(d[0].vals) && key in Keys(d);
      if n in rest {
        var k :| k in Keys(d[1..]) && |Get(d[1..], k).value| == n;
        assert k in Keys(d) && Get(d, k) == Get(d[1..], k);
      }
      if SomeHas(d, n) && n != |d[0].vals| {
        var k :| k in Keys(d) && |Get(d, k).value| == n;
        assert k in Keys(d[1..]) && Get(d, k) == Get(d[1..], k);
      }
    }
  }

  /** A variable has one value or at least n. */
  predicate OneOrMany(d: Dict, n: nat) {
    forall k :: k in Keys(d) ==> |Get(d, k).value| == 1 || |Get(d, k).value| >= n
  }

  predicate AllHave(d: Dict, n: nat) {
    forall k :: k in Keys(d) ==> |Get(d, k).value| == n
  }

  predicate SomeHas(d: Dict, n: nat) {
    exists k :: k in Keys(d) && |Get(d, k).value| == n
  }

  /** There are no repetitions if some variable has no value, or there are none at all; there is one if all have one
      value; otherwise there are as many as the shortest list of more than one value is long, whatever variables with
      one value there are besides. */
  lemma RepetitionsIs(d: Dict, n: nat)
    requires DistinctKeys(d)
    ensures Repetitions(d) == 0 <==> d == [] || SomeHas(d, 0)
    ensures Repetitions(d) == 1 <==> d != [] && AllHave(d, 1)
    ensures n > 1 ==> (Repetitions(d) == n <==> SomeHas(d, n) && OneOrMany(d, n))
  {
    var s := Sorted(Lengths(d));
    SortedSorts(Lengths(d));
    forall m: nat ensures m in s <==> SomeHas(d, m) {
      LengthsIs(d, m);
    }
    SortedSize(Lengths(d));
    LengthsIs(d, 0);
    FirstLongIs(s, 0);
    FirstLongOf(d, s, n, FirstLong(s, 0));
  }

  /** s holds the numbers of values that there are. */
  lemma LengthsOf(d: Dict, s: seq<nat>, n: nat)
    requires forall m: nat :: m in s <==> SomeHas(d, m)
    ensures OneOrMany(d, n) <==> forall x :: x in s ==> x == 1 || x >= n
    ensures AllHave(d, 1) <==> forall x :: x in s ==> x == 1
  {
    hide Keys, Get;
    forall k | k in Keys(d) ensures |Get(d, k).value| in s {
      assert SomeHas(d, |Get(d, k).value|);
    }
    forall x | x in s ensures OneOrMany(d, n) ==> x == 1 || x >= n {
      assert SomeHas(d, x);
    }
    forall x | x in s ensures AllHave(d, 1) ==> x == 1 {
      assert SomeHas(d, x);
    }
  }

  /** r is the first number in s that is not 1, if it comes after ones only. */
  lemma FirstLongOf(d: Dict, s: seq<nat>, n: nat, r: nat)
    requires (s == [] <==> d == []) && forall m: nat :: m in s <==> SomeHas(d, m)
    requires if s == [] then r == 0
             else if 0 in s then r == 0
             else if forall x :: x in s ==> x == 1 then r == 1
             else r > 1 && r in s && forall x :: x in s && x > 1 ==> r <= x
    ensures r == 0 <==> d == [] || SomeHas(d, 0)
    ensures r == 1 <==> d != [] && AllHave(d, 1)
    ensures n > 1 ==> (r == n <==> SomeHas(d, n) && OneOrMany(d, n))
  {
    hide OneOrMany, SomeHas, AllHave;
    LengthsOf(d, s, n);
    LengthsOf(d, s, 1);
    if s != [] { assert s[0] in s; }
  }

  lemma {:induction false} SortedSize(s: seq<nat>)
    ensures |Sorted(s)| == |s|
  {
    if s != [] {
      SortedSize(s[1..]);
      InsertSize(s[0], Sorted(s[1..]));
    }
  }

  lemma {:induction false} InsertSize(n: nat, s: seq<nat>)
    ensures |Insert(n, s)| == |s| + 1
  {
    if s != [] && n > s[0] { InsertSize(n, s[1..]); }
  }

  // ---- What an ellipsis is rewritten to ----

  function Listed(items: seq<Sexp>, rest: Sexp): Sexp {
    if items == [] then rest else Pair(items[0], Listed(items[1..], rest))
  }

  /** t with expressions for some of its symbols. */
  function Fill(t: Sexp, at: map<Symbol, Sexp>): Sexp {
    match t
    case Sym(x) => if x in at then at[x] else t
    case Pair(a, b) => Pair(Fill(a, at), Fill(b, at))
    case _ => t
  }

  /** The i-th value of each variable, or the only one. */
  function Row(d: Dict, i: nat): map<Symbol, Sexp> {
    map k | k in Keys(d) && (|Get(d, k).value| == 1 || i < |Get(d, k).value|) ::
      if |Get(d, k).value| == 1 then Get(d, k).value[0] else Get(d, k).value[i]
  }

  lemma {:induction false} BodyRewrites(own: Dict, t: Sexp, at: map<Symbol, Sexp>)
    requires Flat(t)
    requires forall x :: x in SymbolsOf(t, []) ==> (x in at <==> x in Keys(own) && Get(own, x).value != [])
    requires forall x :: x in SymbolsOf(t, []) && x in at ==> at[x] == Get(own, x).value[0]
    ensures Rewrite(own, t) == Fill(t, at)
  {
    if t.Pair? {
      forall x | x in SymbolsOf(t.car, []) || x in SymbolsOf(t.cdr, []) ensures x in SymbolsOf(t, []) {
        SymbolsMore(t.cdr, SymbolsOf(t.car, []), x);
      }
      BodyRewrites(own, t.car, at);
      BodyRewrites(own, t.cdr, at);
    }
  }

  lemma {:induction false} SymbolsMore(e: Sexp, found: seq<Symbol>, x: Symbol)
    ensures x in SymbolsOf(e, found) <==> x in found || x in SymbolsOf(e, [])
  {
    if e.Pair? {
      SymbolsMore(e.car, found, x);
      SymbolsMore(e.cdr, SymbolsOf(e.car, found), x);
      SymbolsMore(e.cdr, SymbolsOf(e.car, []), x);
    }
  }

  /** own is what is left of d when i values have been taken off each list of more than one, and n rows are left. */
  ghost predicate Popped(own: Dict, d: Dict, i: nat, n: nat) {
    && Keys(own) == Keys(d)
    && forall k :: k in Keys(d) ==>
         var v := Get(d, k).value;
         |v| == 1 || i + n <= |v| ==>
           if |v| == 1 then Get(own, k).value == v else Get(own, k).value == v[i..]
  }

  lemma PoppedMore(own: Dict, d: Dict, i: nat, n: nat)
    requires Popped(own, d, i, n) && n > 1 && OneOrMany(d, i + n)
    ensures Popped(Pop(own), d, i + 1, n - 1)
  {
    hide Get, Keys;
    PopIs(own, "");
    forall k | k in Keys(d)
      ensures var v := Get(d, k).value;
              k in Keys(Pop(own))
              && if |v| == 1 then Get(Pop(own), k).value == v else Get(Pop(own), k).value == v[i+1..]
    {
      PopIs(own, k);
    }
  }

  /** A body n times, with the i-th values and those that follow. */
  function Rows(d: Dict, a: Sexp, i: nat, n: nat): (r: seq<Sexp>)
    ensures |r| == n && forall j :: 0 <= j < n ==> r[j] == Fill(a, Row(d, i + j))
    decreases n
  {
    if n == 0 then [] else [Fill(a, Row(d, i))] + Rows(d, a, i + 1, n - 1)
  }

  lemma RowRewrites(own: Dict, d: Dict, a: Sexp, i: nat, n: nat)
    requires Flat(a) && Popped(own, d, i, n) && n > 0 && OneOrMany(d, i + n) && !SomeHas(d, 0)
    ensures Rewrite(own, a) == Fill(a, Row(d, i))
  {
    forall k | k in Keys(d) ensures Get(own, k).value != [] && k in Row(d, i) && Row(d, i)[k] == Get(own, k).value[0] {
      assert |Get(d, k).value| != 0;
    }
    hide Get, Keys;
    BodyRewrites(own, a, Row(d, i));
  }

  lemma {:induction false} CopiesAre(own: Dict, d: Dict, a: Sexp, i: nat, n: nat, D: Dict, rest: Sexp)
    requires Flat(a) && Popped(own, d, i, n) && OneOrMany(d, i + n) && (n > 0 ==> !SomeHas(d, 0))
    ensures Copies(own, a, n, D, rest) == Listed(Rows(d, a, i, n), Rewrite(D, rest))
    decreases n
  {
    if n > 0 {
      RowRewrites(own, d, a, i, n);
      hide Popped, Get, Keys, Row, Fill, OneOrMany, SomeHas, Rewrite;
      if n > 1 {
        PoppedMore(own, d, i, n);
        CopiesAre(Pop(own), d, a, i + 1, n - 1, D, rest);
      } else {
        NoCopies(Pop(own), a, D, rest);
      }
      assert Rows(d, a, i, n)[1..] == Rows(d, a, i + 1, n - 1);
    }
  }

  lemma NoCopies(own: Dict, a: Sexp, D: Dict, rest: Sexp)
    ensures Copies(own, a, 0, D, rest) == Rewrite(D, rest)
  {
  }

  /** The variables of a body that have values to give. */
  function BodyVars(d: Dict, a: Sexp): set<Symbol> {
    Keys(d) * Elems(SymbolsOf(a, []))
  }

  lemma FillOwn(own: Dict, d: Dict, a: Sexp, i: nat)
    requires own == Only(d, SymbolsOf(a, []))
    ensures Fill(a, Row(own, i)) == Fill(a, Row(d, i))
  {
    OnlyIs(d, SymbolsOf(a, []));
    forall x | x in SymbolsOf(a, []) ensures x in Row(own, i) <==> x in Row(d, i)
    ensures x in Row(own, i) ==> Row(own, i)[x] == Row(d, i)[x]
    {
      assert x in Elems(SymbolsOf(a, []));
    }
    FillAgree(a, Row(own, i), Row(d, i));
  }

  lemma {:induction false} FillAgree(t: Sexp, m1: map<Symbol, Sexp>, m2: map<Symbol, Sexp>)
    requires forall x :: x in SymbolsOf(t, []) ==> (x in m1 <==> x in m2) && (x in m1 ==> m1[x] == m2[x])
    ensures Fill(t, m1) == Fill(t, m2)
  {
    if t.Pair? {
      forall x | x in SymbolsOf(t.car, []) || x in SymbolsOf(t.cdr, []) ensures x in SymbolsOf(t, []) {
        SymbolsMore(t.cdr, SymbolsOf(t.car, []), x);
      }
      FillAgree(t.car, m1, m2);
      FillAgree(t.cdr, m1, m2);
    }
  }

  /** A body and its ellipsis are rewritten to a list of items.  There are none if the body has no variables or one of
      them has no value, one if each has one value, and n if each has one or at least n values and some has n: the i-th
      item is the body with the i-th value of each variable that has many, and the only one of the others. */
  lemma EllipsisItems(d: Dict, a: Sexp, rest: Sexp, n: nat)
    requires DistinctKeys(d) && Flat(a)
    requires if n == 0 then BodyVars(d, a) == {} || exists k :: k in BodyVars(d, a) && Get(d, k).value == []
             else && (forall k :: k in BodyVars(d, a) ==> |Get(d, k).value| == 1 || (n > 1 && |Get(d, k).value| >= n))
                  && exists k :: k in BodyVars(d, a) && |Get(d, k).value| == n
    ensures Rewrite(d, Pair(a, Pair(Sym("..."), rest))) == Listed(Rows(d, a, 0, n), Rewrite(d, rest))
  {
    var own := Only(d, SymbolsOf(a, []));
    OnlyIs(d, SymbolsOf(a, []));
    forall k | k in BodyVars(d, a) ensures k in Keys(own) && Get(own, k) == Get(d, k) {
      assert k in Elems(SymbolsOf(a, []));
    }
    OwnRepetitions(d, own, BodyVars(d, a), n);
    EllipsisRewrites(a, rest, d);
    CopiesAre(own, own, a, 0, n, d, rest);
    forall i | 0 <= i < n ensures Rows(own, a, 0, n)[i] == Rows(d, a, 0, n)[i] {
      FillOwn(own, d, a, i);
    }
    assert Rows(own, a, 0, n) == Rows(d, a, 0, n);
  }

  lemma NoKeys(d: Dict)
    requires Keys(d) == {}
    ensures d == []
  {
  }

  lemma OwnRepetitions(d: Dict, own: Dict, vars: set<Symbol>, n: nat)
    requires DistinctKeys(own) && Keys(own) == vars
    requires forall k :: k in vars ==> Get(own, k) == Get(d, k) && k in Keys(d)
    requires if n == 0 then vars == {} || exists k :: k in vars && Get(d, k).value == []
             else && (forall k :: k in vars ==> |Get(d, k).value| == 1 || (n > 1 && |Get(d, k).value| >= n))
                  && exists k :: k in vars && |Get(d, k).value| == n
    ensures Repetitions(own) == n && OneOrMany(own, n) && (n > 0 ==> !SomeHas(own, 0))
    ensures Popped(own, own, 0, n)
  {
    RepetitionsIs(own, n);
    if n == 0 {
      if vars == {} {
        NoKeys(own);
      } else {
        var k :| k in vars && Get(d, k).value == [];
        assert k in Keys(own) && |Get(own, k).value| == 0;
      }
    } else {
      var k :| k in vars && |Get(d, k).value| == n;
      assert k in Keys(own) && |Get(own, k).value| == n;
    }
  }

  // ---- Where it ends ----

  /** Items of a body without variables are forgotten. */
  lemma LiteralItemsLost(l: Symbol)
    requires l != "_"
    ensures var p, f := Pair(Sym(l), Pair(Sym("..."), Nil)), Pair(Sym(l), Nil);
            && TryPattern(p, {l}, f) == Matched([]) && Rewrite([], p) == Nil
  {
    var p, f := Pair(Sym(l), Pair(Sym("..."), Nil)), Pair(Sym(l), Nil);
    assert SymbolsOf(Sym(l), []) == [l] && [l][1..] == [] && Without([l][1..], {l}) == [];
    assert Bound(Sym(l), {l}) == [];
    assert Match(Nil, {l}, f, false, []) == Failed && Match(Sym(l), {l}, f.car, true, []) == Matched([]);
    assert Repeat(Sym(l), Nil, {l}, Nil, []) == Match(Nil, {l}, Nil, false, []) == Matched([]);
    assert Repeat(Sym(l), Nil, {l}, f, []) == Matched([]);
    assert Repetitions([]) == 0 && Rewrite([], Nil) == Nil;
  }

  /** A variable that is used again after its ellipsis has no value to compare with when there are no items. */
  lemma RepeatedVariableBreaks(v: Symbol, x: nat)
    requires v != "_" && v != "..."
    ensures TryPattern(Pair(Sym(v), Pair(Sym("..."), Pair(Sym(v), Nil))), {}, Pair(Atom(x), Nil)) == Broken
  {
    var rest, f := Pair(Sym(v), Nil), Pair(Atom(x), Nil);
    assert SymbolsOf(Sym(v), []) == [v] && [v][1..] == [];
    assert Without([v][1..], {}) == [] && [v] + [] == [v];
    assert Bound(Sym(v), {}) == [v];
    var d := Init([v], []);
    assert Init([v][1..], [Binding(v, [])] + []) == [Binding(v, [])] + [];
    assert d == [Binding(v, [])];
    assert Match(Sym(v), {}, f.car, false, d) == Broken;
    assert Match(rest, {}, f, false, d) == Broken;
    assert Repeat(Sym(v), rest, {}, f, d) == Broken;
  }

  /** A variable after an ellipsis under an ellipsis, ((x ... y) ...), has none either when the first item is
      matched. */
  lemma NestedVariableBreaks(x: Symbol, y: Symbol, n: nat)
    requires x != y && x !in {"_", "..."} && y !in {"_", "..."}
    ensures var inner := Pair(Sym(x), Pair(Sym("..."), Pair(Sym(y), Nil)));
            TryPattern(Pair(inner, Pair(Sym("..."), Nil)), {}, Pair(Pair(Atom(n), Nil), Nil)) == Broken
  {
    var rest := Pair(Sym(y), Nil);
    var inner, item := Pair(Sym(x), Pair(Sym("..."), rest)), Pair(Atom(n), Nil);
    assert IsEllipsis(inner) && Vars(rest, {}) == {y} && Vars(inner, {}) == {x, y};
    InitHas(inner, {});
    var d := Init(Bound(inner, {}), []);
    assert y in Bound(inner, {});
    InitIs(Bound(inner, {}), [], y);
    var d0 := Init(Bound(Sym(x), {}), d);
    InitHas(Sym(x), {});
    InitIs(Bound(Sym(x), {}), d, y);
    InitIs(Bound(Sym(x), {}), [], y);
    assert Get(d0, y) == Some([]);
    assert Match(Sym(y), {}, item.car, false, d0) == Broken;
    assert Match(rest, {}, item, false, d0) == Broken;
    assert Repeat(Sym(x), rest, {}, item, d0) == Broken;
    assert Match(inner, {}, item, true, d) == Broken;
    assert Match(Nil, {}, Pair(item, Nil), false, d) == Failed;
    assert Repeat(inner, Nil, {}, Pair(item, Nil), d) == Broken;
  }
}
