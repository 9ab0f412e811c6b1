/** Closure conversion. */
module Closure {
  import opened Lists
  import opened Wrappers

  /** Gen: a generated symbol.  Foo: the symbol `_foo`, which the conversion uses itself. */
  datatype Name = Foo | Gen(n: nat)

  /** Op: a primitive.  Datum: any other constant that has to be stored. */
  datatype Const = Num(n: int) | True | False | Null | Op(op: nat) | Datum(id: nat)

  datatype Exp =
    | Value(val: Const)
    | Var(name: Name)
    | Call(rator: Exp, rands: seq<Exp>)
    | Ifeq(a: Exp, b: Exp, yes: Exp, no: Exp)
    | Lambda(formals: seq<Name>, body: Exp)
    | LambdaVar(fixed: bool, formals: seq<Name>, body: Exp)
    | Either(func: Exp, alt: Exp)
      // closure, closure-var and closure-case, which the code tells apart
    | Closure(code: Exp, clos: seq<Name>)
    | Make(offset: nat, clos: seq<Name>, lits: seq<Lit>)

  /** What is stored for a procedure: constants and uncompiled closures. */
  datatype Lit = Plain(c: Const) | Code(code: Exp, clos: seq<Name>, lits: seq<Lit>)

  function Free(e: Exp): set<Name> {
    match e
    case Value(_) => {}
    case Var(x) => {x}
    case Call(f, es) => Free(f) + FreeAll(es)
    case Ifeq(a, b, y, n) => Free(a) + Free(b) + Free(y) + Free(n)
    case Lambda(fs, b) => Free(b) - Elems(fs)
    case LambdaVar(_, fs, b) => Free(b) - Elems(fs)
    case Either(f, alt) => Free(f) + Free(alt)
    case Closure(_, clos) => Elems(clos)
    case Make(_, clos, _) => Elems(clos)
  }

  function FreeAll(es: seq<Exp>): set<Name> {
    if es == [] then {} else Free(es[0]) + FreeAll(es[1..])
  }

  predicate Primop(e: Exp) {
    e.Value? && e.val.Op?
  }

  predicate Small(c: Const) {
    c.True? || c.False? || c.Null? || (c.Num? && -127 <= c.n < 127)
  }

  // ---- First pass: what each closure has to hold ----

  function Take(x: Name, used: seq<Name>): seq<Name> {
    if x in used then used else [x] + used
  }

  /** The continuation that is put in place of a variable. */
  function Forward(k: Name): Exp {
    Lambda([Foo], Call(Var(k), [Var(Foo)]))
  }

  /** t is a procedure that passes its argument on to the variable k. */
  predicate PassesOn(t: Exp, k: Name) {
    t.Lambda? && |t.formals| == 1 && t.formals[0] != k && t.body == Call(Var(k), [Var(t.formals[0])])
  }

  /** With `_foo` for k its argument would hide k. */
  lemma ForwardPassesOn(k: Name)
    ensures PassesOn(Forward(k), k) <==> k != Foo
  {
  }

  /** A procedure as code, or as a closure when it is used as a value. */
  function Wrap(code: Exp, clos: seq<Name>, close: bool): Exp {
    if close then Closure(code, clos) else code
  }

  /** closurize: the converted expression and the variables it uses, together with those in `used`;
      fails when a primitive's continuation is neither a lambda nor a variable. */
  function Closurize(e: Exp, used: seq<Name>, close: bool): Option<(Exp, seq<Name>)> {
    match e
    case Value(_) => Some((e, used))
    case Var(x) => Some((e, Take(x, used)))
    case Call(f, es) =>
      if Primop(f) then
        if es == [] then None
        else if es[0].Lambda? then
          var k := Closurize(es[0], used, false);
          if k.None? then None
          else
            var rest := ClosurizeAll(es[1..], k.value.1);
            if rest.None? then None else Some((Call(f, [k.value.0] + rest.value.0), rest.value.1))
        else if es[0].Var? then
          var clos := Diff(Take(Foo, Take(es[0].name, [])), [Foo]);
          var rest := ClosurizeAll(es[1..], Union(used, clos));
          if rest.None? then None else Some((Call(f, [Forward(es[0].name)] + rest.value.0), rest.value.1))
        else None
      else
        var g := Closurize(f, used, false);
        if g.None? then None
        else
          var rest := ClosurizeAll(es, g.value.1);
          if rest.None? then None else Some((Call(g.value.0, rest.value.0), rest.value.1))
    case Ifeq(a, b, y, n) =>
      var a' := Closurize(a, used, true);
      if a'.None? then None
      else
        var b' := Closurize(b, a'.value.1, true);
        if b'.None? then None
        else
          var y' := Closurize(y, b'.value.1, true);
          if y'.None? then None
          else
            var n' := Closurize(n, y'.value.1, true);
            if n'.None? then None
            else Some((Ifeq(a'.value.0, b'.value.0, y'.value.0, n'.value.0), n'.value.1))
    case Lambda(fs, b) =>
      var b' := Closurize(b, [], true);
      if b'.None? then None
      else
        var clos := Diff(b'.value.1, fs);
        Some((Wrap(Lambda(fs, b'.value.0), clos, close), Union(used, clos)))
    case LambdaVar(fixed, fs, b) =>
      var b' := Closurize(b, [], true);
      if b'.None? then None
      else
        var clos := Diff(b'.value.1, fs);
        Some((Wrap(LambdaVar(fixed, fs, b'.value.0), clos, close), Union(used, clos)))
    case Either(f, alt) =>
      var f' := Closurize(f, if close then [] else used, false);
      if f'.None? then None
      else
        var alt' := Closurize(alt, f'.value.1, false);
        if alt'.None? then None
        else
          var both := Either(f'.value.0, alt'.value.0);
          if close then Some((Closure(both, alt'.value.1), Union(used, alt'.value.1)))
          else Some((both, alt'.value.1))
    case Closure(_, _) => None
    case Make(_, _, _) => None
  }

  function ClosurizeAll(es: seq<Exp>, used: seq<Name>): (r: Option<(seq<Exp>, seq<Name>)>)
    ensures r.Some? ==> |r.value.0| == |es|
  {
    if es == [] then Some(([], used))
    else
      var first := Closurize(es[0], used, true);
      if first.None? then None
      else
        var rest := ClosurizeAll(es[1..], first.value.1);
        if rest.None? then None else Some(([first.value.0] + rest.value.0, rest.value.1))
  }

  // ---- Second pass: what has to be stored ----

  function Literalize(e: Exp, lits: seq<Lit>): (Exp, seq<Lit>) {
    match e
    case Value(c) => (e, if Plain(c) in lits || Small(c) then lits else lits + [Plain(c)])
    case Var(_) => (e, lits)
    case Call(f, es) =>
      var (f', lits1) := if Primop(f) then (f, lits) else Literalize(f, lits);
      var (es', lits2) := LiteralizeAll(es, lits1);
      (Call(f', es'), lits2)
    case Ifeq(a, b, y, n) =>
      var (a', lits1) := Literalize(a, lits);
      var (b', lits2) := Literalize(b, lits1);
      var (y', lits3) := Literalize(y, lits2);
      var (n', lits4) := Literalize(n, lits3);
      (Ifeq(a', b', y', n'), lits4)
    case Lambda(fs, b) =>
      var (b', lits1) := Literalize(b, lits);
      (Lambda(fs, b'), lits1)
    case LambdaVar(fixed, fs, b) =>
      var (b', lits1) := Literalize(b, lits);
      (LambdaVar(fixed, fs, b'), lits1)
    case Either(f, alt) =>
      var (f', lits1) := Literalize(f, lits);
      var (alt', lits2) := Literalize(alt, lits1);
      (Either(f', alt'), lits2)
    case Closure(code, clos) =>
      var (code', own) := Literalize(code, []);
      var lits1 := lits + [Code(code', clos, own)];
      (Make(1 + |lits1|, clos, own), lits1)
    case Make(_, _, _) => (e, lits)
  }

  function LiteralizeAll(es: seq<Exp>, lits: seq<Lit>): (r: (seq<Exp>, seq<Lit>))
    ensures |r.0| == |es|
  {
    if es == [] then ([], lits)
    else
      var (first, lits1) := Literalize(es[0], lits);
      var (rest, lits2) := LiteralizeAll(es[1..], lits1);
      ([first] + rest, lits2)
  }

  /** The constants that code itself uses, not those of the procedures it makes. */
  function Constants(e: Exp): set<Const> {
    match e
    case Value(c) => {c}
    case Var(_) => {}
    case Call(f, es) => (if Primop(f) then {} else Constants(f)) + ConstantsAll(es)
    case Ifeq(a, b, y, n) => Constants(a) + Constants(b) + Constants(y) + Constants(n)
    case Lambda(_, b) => Constants(b)
    case LambdaVar(_, _, b) => Constants(b)
    case Either(f, alt) => Constants(f) + Constants(alt)
    case Closure(_, _) => {}
    case Make(_, _, _) => {}
  }

  function ConstantsAll(es: seq<Exp>): set<Const> {
    if es == [] then {} else Constants(es[0]) + ConstantsAll(es[1..])
  }

  /** `more` is `lits` with these constants added, of those that are not small and not there yet, each of them once. */
  ghost predicate Stored(lits: seq<Lit>, more: seq<Lit>, cs: set<Const>) {
    && lits <= more
    && (forall c :: Plain(c) in more <==> Plain(c) in lits || (c in cs && !Small(c)))
    && (OnceEach(lits) ==> OnceEach(more))
  }

  predicate OnceEach(lits: seq<Lit>) {
    forall i, j :: 0 <= i < j < |lits| && lits[i].Plain? ==> lits[i] != lits[j]
  }

  lemma StoredThen(a: seq<Lit>, b: seq<Lit>, c: seq<Lit>, cs: set<Const>, more: set<Const>)
    requires Stored(a, b, cs) && Stored(b, c, more)
    ensures Stored(a, c, cs + more)
  {
  }

  /** The literals of a procedure: each constant that it uses and that is not small, once, and no others. */
  lemma {:induction false} LiteralsExact(e: Exp, lits: seq<Lit>)
    ensures Stored(lits, Literalize(e, lits).1, Constants(e))
    decreases e, 0
  {
    hide Stored, OnceEach;
    match e
    case Value(c) => ConstantStored(c, lits);
    case Var(_) => NothingStored(lits);
    case Call(f, es) =>
      if Primop(f) {
        LiteralsAllExact(es, lits);
        assert Constants(e) == ConstantsAll(es);
      } else {
        LiteralsExact(f, lits);
        var lits1 := Literalize(f, lits).1;
        LiteralsAllExact(es, lits1);
        StoredThen(lits, lits1, LiteralizeAll(es, lits1).1, Constants(f), ConstantsAll(es));
      }
    case Ifeq(a, b, y, n) =>
      var lits1 := Literalize(a, lits).1;
      var lits2 := Literalize(b, lits1).1;
      var lits3 := Literalize(y, lits2).1;
      LiteralsExact(a, lits);
      LiteralsExact(b, lits1);
      LiteralsExact(y, lits2);
      LiteralsExact(n, lits3);
      StoredThen(lits, lits1, lits2, Constants(a), Constants(b));
      StoredThen(lits, lits2, lits3, Constants(a) + Constants(b), Constants(y));
      StoredThen(lits, lits3, Literalize(n, lits3).1, Constants(a) + Constants(b) + Constants(y), Constants(n));
    case Lambda(_, b) => LiteralsExact(b, lits);
    case LambdaVar(_, _, b) => LiteralsExact(b, lits);
    case Either(f, alt) =>
      var lits1 := Literalize(f, lits).1;
      LiteralsExact(f, lits);
      LiteralsExact(alt, lits1);
      StoredThen(lits, lits1, Literalize(alt, lits1).1, Constants(f), Constants(alt));
    case Closure(code, clos) => CodeStored(lits, Code(Literalize(code, []).0, clos, Literalize(code, []).1));
    case Make(_, _, _) => NothingStored(lits);
  }

  lemma {:induction false} LiteralsAllExact(es: seq<Exp>, lits: seq<Lit>)
    ensures Stored(lits, LiteralizeAll(es, lits).1, ConstantsAll(es))
    decreases es, 0
  {
    hide Stored, OnceEach;
    if es == [] {
      NothingStored(lits);
    } else {
      var lits1 := Literalize(es[0], lits).1;
      LiteralsExact(es[0], lits);
      LiteralsAllExact(es[1..], lits1);
      StoredThen(lits, lits1, LiteralizeAll(es[1..], lits1).1, Constants(es[0]), ConstantsAll(es[1..]));
    }
  }

  lemma NothingStored(lits: seq<Lit>)
    ensures Stored(lits, lits, {})
  {
  }

  lemma ConstantStored(c: Const, lits: seq<Lit>)
    ensures Stored(lits, Literalize(Value(c), lits).1, {c})
  {
  }

  lemma CodeStored(lits: seq<Lit>, code: Lit)
    requires code.Code?
    ensures Stored(lits, lits + [code], {})
  {
  }

  /** build-closures: the executable part of a program, ready to be compiled. */
  function Build(e: Exp): Option<Lit> {
    var c := Closurize(e, [], true);
    if c.None? then None
    else
      var lits := Literalize(c.value.0, []).1;
      if lits != [] && lits[0].Code? then Some(lits[0]) else None
  }

  // ---- Which programs can be converted ----

  /** A primitive is always given a continuation: a lambda or a variable. */
  predicate Convertible(e: Exp) {
    match e
    case Value(_) => true
    case Var(_) => true
    case Call(f, es) =>
      && Convertible(f) && ConvertibleAll(es)
      && (Primop(f) ==> es != [] && (es[0].Lambda? || es[0].Var?))
    case Ifeq(a, b, y, n) => Convertible(a) && Convertible(b) && Convertible(y) && Convertible(n)
    case Lambda(_, b) => Convertible(b)
    case LambdaVar(_, _, b) => Convertible(b)
    case Either(f, alt) => Convertible(f) && Convertible(alt)
    case Closure(_, _) => false
    case Make(_, _, _) => false
  }

  predicate ConvertibleAll(es: seq<Exp>) {
    es == [] || (Convertible(es[0]) && ConvertibleAll(es[1..]))
  }

  /** No primitive continues with the variable `_foo`. */
  predicate NoFoo(e: Exp) {
    match e
    case Value(_) => true
    case Var(_) => true
    case Call(f, es) => NoFoo(f) && NoFooAll(es) && (Primop(f) && es != [] ==> es[0] != Var(Foo))
    case Ifeq(a, b, y, n) => NoFoo(a) && NoFoo(b) && NoFoo(y) && NoFoo(n)
    case Lambda(_, b) => NoFoo(b)
    case LambdaVar(_, _, b) => NoFoo(b)
    case Either(f, alt) => NoFoo(f) && NoFoo(alt)
    case Closure(_, _) => true
    case Make(_, _, _) => true
  }

  predicate NoFooAll(es: seq<Exp>) {
    es == [] || (NoFoo(es[0]) && NoFooAll(es[1..]))
  }

  lemma {:induction false} ClosurizeSucceeds(e: Exp, used: seq<Name>, close: bool)
    ensures Closurize(e, used, close).Some? <==> Convertible(e)
    decreases e, 0
  {
    match e
    case Value(_) =>
    case Var(_) =>
    case Call(f, es) =>
      if Primop(f) {
        if es != [] {
          if es[0].Lambda? {
            ClosurizeSucceeds(es[0], used, false);
            var k := Closurize(es[0], used, false);
            if k.Some? { ClosurizeAllSucceeds(es[1..], k.value.1); }
          } else if es[0].Var? {
            assert Convertible(es[0]);
            ClosurizeAllSucceeds(es[1..], Union(used, Diff(Take(Foo, Take(es[0].name, [])), [Foo])));
          } else {
            assert Closurize(e, used, close).None?;
          }
        }
      } else {
        ClosurizeSucceeds(f, used, false);
        var g := Closurize(f, used, false);
        if g.Some? { ClosurizeAllSucceeds(es, g.value.1); }
      }
    case Ifeq(a, b, y, n) =>
      ClosurizeSucceeds(a, used, true);
      var a' := Closurize(a, used, true);
      if a'.Some? {
        ClosurizeSucceeds(b, a'.value.1, true);
        var b' := Closurize(b, a'.value.1, true);
        if b'.Some? {
          ClosurizeSucceeds(y, b'.value.1, true);
          var y' := Closurize(y, b'.value.1, true);
          if y'.Some? { ClosurizeSucceeds(n, y'.value.1, true); }
        }
      }
    case Lambda(_, b) => ClosurizeSucceeds(b, [], true);
    case LambdaVar(_, _, b) => ClosurizeSucceeds(b, [], true);
    case Either(f, alt) =>
      ClosurizeSucceeds(f, if close then [] else used, false);
      var f' := Closurize(f, if close then [] else used, false);
      if f'.Some? { ClosurizeSucceeds(alt, f'.value.1, false); }
    case Closure(_, _) =>
    case Make(_, _, _) =>
  }

  lemma {:induction false} ClosurizeAllSucceeds(es: seq<Exp>, used: seq<Name>)
    ensures ClosurizeAll(es, used).Some? <==> ConvertibleAll(es)
    decreases es, 0
  {
    if es != [] {
      ClosurizeSucceeds(es[0], used, true);
      var first := Closurize(es[0], used, true);
      if first.Some? { ClosurizeAllSucceeds(es[1..], first.value.1); }
    }
  }

  // ---- What is used ----

  lemma UnionIs(a: seq<Name>, b: seq<Name>)
    ensures Elems(Union(a, b)) == Elems(a) + Elems(b)
    ensures NoDup(a) && NoDup(b) ==> NoDup(Union(a, b))
  {
    if NoDup(a) && NoDup(b) { UnionNoDup(a, b); }
  }

  lemma DiffIs(a: seq<Name>, b: seq<Name>)
    ensures Elems(Diff(a, b)) == Elems(a) - Elems(b)
    ensures NoDup(a) ==> NoDup(Diff(a, b))
  {
    if NoDup(a) { DiffNoDup(a, b); }
  }

  lemma TakeIs(x: Name, used: seq<Name>)
    ensures Elems(Take(x, used)) == {x} + Elems(used)
    ensures NoDup(used) ==> NoDup(Take(x, used))
  {
    if x in used {
      assert x in Elems(used);
    } else {
      assert ([x] + used)[1..] == used;
    }
  }

  lemma ForwardUses(k: Name)
    ensures var clos := Diff(Take(Foo, Take(k, [])), [Foo]);
            Elems(clos) == {k} - {Foo} && NoDup(clos)
  {
    TakeIs(k, []);
    TakeIs(Foo, Take(k, []));
    DiffIs(Take(Foo, Take(k, [])), [Foo]);
  }

  /** used' is what was used before and what is new, without repetition. */
  predicate Adds(used: seq<Name>, used': seq<Name>, more: set<Name>) {
    Elems(used') == Elems(used) + more && (NoDup(used) ==> NoDup(used'))
  }

  lemma WrapUses(bused: seq<Name>, used: seq<Name>, fs: seq<Name>, free: set<Name>)
    requires Adds([], bused, free)
    ensures Adds([], Diff(bused, fs), free - Elems(fs)) && Adds(used, Union(used, Diff(bused, fs)), free - Elems(fs))
  {
    DiffIs(bused, fs);
    UnionIs(used, Diff(bused, fs));
  }

  /** closurize adds exactly the free variables of the expression. */
  lemma {:induction false} ClosurizeUses(e: Exp, used: seq<Name>, close: bool)
    requires Closurize(e, used, close).Some? && NoFoo(e)
    ensures Adds(used, Closurize(e, used, close).value.1, Free(e))
    decreases e, 0
  {
    match e
    case Value(_) =>
    case Var(x) => TakeIs(x, used);
    case Call(f, es) =>
      if Primop(f) {
        assert FreeAll(es) == Free(es[0]) + FreeAll(es[1..]);
        if es[0].Lambda? {
          ClosurizeUses(es[0], used, false);
          ClosurizeAllUses(es[1..], Closurize(es[0], used, false).value.1);
        } else {
          var clos := Diff(Take(Foo, Take(es[0].name, [])), [Foo]);
          ForwardUses(es[0].name);
          UnionIs(used, clos);
          ClosurizeAllUses(es[1..], Union(used, clos));
        }
      } else {
        ClosurizeUses(f, used, false);
        ClosurizeAllUses(es, Closurize(f, used, false).value.1);
      }
    case Ifeq(a, b, y, n) =>
      ClosurizeUses(a, used, true);
      var used1 := Closurize(a, used, true).value.1;
      ClosurizeUses(b, used1, true);
      var used2 := Closurize(b, used1, true).value.1;
      ClosurizeUses(y, used2, true);
      ClosurizeUses(n, Closurize(y, used2, true).value.1, true);
    case Lambda(fs, b) =>
      ClosurizeUses(b, [], true);
      WrapUses(Closurize(b, [], true).value.1, used, fs, Free(b));
    case LambdaVar(_, fs, b) =>
      ClosurizeUses(b, [], true);
      WrapUses(Closurize(b, [], true).value.1, used, fs, Free(b));
    case Either(f, alt) =>
      var start := if close then [] else used;
      ClosurizeUses(f, start, false);
      var used1 := Closurize(f, start, false).value.1;
      ClosurizeUses(alt, used1, false);
      UnionIs(used, Closurize(alt, used1, false).value.1);
  }

  lemma {:induction false} ClosurizeAllUses(es: seq<Exp>, used: seq<Name>)
    requires ClosurizeAll(es, used).Some? && NoFooAll(es)
    ensures Adds(used, ClosurizeAll(es, used).value.1, FreeAll(es))
    decreases es, 0
  {
    if es != [] {
      ClosurizeUses(es[0], used, true);
      ClosurizeAllUses(es[1..], Closurize(es[0], used, true).value.1);
    }
  }

  // ---- What has been made of an expression ----

  /** t is what e becomes in a procedure with these literals: large constants are among them, and so is, at
      the offset given, the code of each closure, which holds the free variables of the expression it comes
      from, each once. */
  ghost predicate Made(e: Exp, close: bool, t: Exp, lits: seq<Lit>)
    decreases e, 1
  {
    match e
    case Value(c) => t == e && (Small(c) || Plain(c) in lits)
    case Var(_) => t == e
    case Call(f, es) =>
      && t.Call? && |t.rands| == |es|
      && if Primop(f) then
           && t.rator == f && es != []
           && (if es[0].Lambda? then Made(es[0], false, t.rands[0], lits)
               else es[0].Var? && t.rands[0] == Forward(es[0].name) && PassesOn(t.rands[0], es[0].name))
           && MadeAll(es[1..], t.rands[1..], lits)
         else
           Made(f, false, t.rator, lits) && MadeAll(es, t.rands, lits)
    case Ifeq(a, b, y, n) =>
      && t.Ifeq? && Made(a, true, t.a, lits) && Made(b, true, t.b, lits)
      && Made(y, true, t.yes, lits) && Made(n, true, t.no, lits)
    case Closure(_, _) => false
    case Make(_, _, _) => false
    case _ => if close then ClosureMade(e, t, lits) else CodeMade(e, t, lits)
  }

  ghost predicate MadeAll(es: seq<Exp>, ts: seq<Exp>, lits: seq<Lit>)
    decreases es, 2
  {
    |ts| == |es| && (es == [] || (Made(es[0], true, ts[0], lits) && MadeAll(es[1..], ts[1..], lits)))
  }

  ghost predicate CodeMade(e: Exp, t: Exp, lits: seq<Lit>)
    decreases e, 0, 0
  {
    match e
    case Lambda(fs, b) => t.Lambda? && t.formals == fs && Made(b, true, t.body, lits)
    case LambdaVar(fixed, fs, b) => t.LambdaVar? && t.fixed == fixed && t.formals == fs && Made(b, true, t.body, lits)
    case Either(f, alt) => t.Either? && Made(f, false, t.func, lits) && Made(alt, false, t.alt, lits)
    case _ => false
  }

  ghost predicate ClosureMade(e: Exp, t: Exp, lits: seq<Lit>)
    decreases e, 0, 1
  {
    && t.Make? && NoDup(t.clos) && Elems(t.clos) == Free(e)
    && 2 <= t.offset < |lits| + 2
    && lits[t.offset-2].Code?
    && lits[t.offset-2] == Code(lits[t.offset-2].code, t.clos, t.lits)
    && CodeMade(e, lits[t.offset-2].code, t.lits)
  }

  lemma {:induction false} MadeMore(e: Exp, close: bool, t: Exp, lits: seq<Lit>, more: seq<Lit>)
    requires Made(e, close, t, lits) && lits <= more
    ensures Made(e, close, t, more)
    decreases e, 1
  {
    match e
    case Value(c) => if !Small(c) { assert Plain(c) in lits; }
    case Var(_) =>
    case Call(f, es) =>
      if Primop(f) {
        if es[0].Lambda? { MadeMore(es[0], false, t.rands[0], lits, more); }
        MadeAllMore(es[1..], t.rands[1..], lits, more);
      } else {
        MadeMore(f, false, t.rator, lits, more);
        MadeAllMore(es, t.rands, lits, more);
      }
    case Ifeq(a, b, y, n) =>
      MadeMore(a, true, t.a, lits, more);
      MadeMore(b, true, t.b, lits, more);
      MadeMore(y, true, t.yes, lits, more);
      MadeMore(n, true, t.no, lits, more);
    case Closure(_, _) =>
    case Make(_, _, _) =>
    case _ => if !close { CodeMadeMore(e, t, lits, more); }
  }

  lemma {:induction false} CodeMadeMore(e: Exp, t: Exp, lits: seq<Lit>, more: seq<Lit>)
    requires CodeMade(e, t, lits) && lits <= more
    ensures CodeMade(e, t, more)
    decreases e, 0
  {
    match e
    case Lambda(_, b) => MadeMore(b, true, t.body, lits, more);
    case LambdaVar(_, _, b) => MadeMore(b, true, t.body, lits, more);
    case Either(f, alt) =>
      MadeMore(f, false, t.func, lits, more);
      MadeMore(alt, false, t.alt, lits, more);
  }

  lemma {:induction false} MadeAllMore(es: seq<Exp>, ts: seq<Exp>, lits: seq<Lit>, more: seq<Lit>)
    requires MadeAll(es, ts, lits) && lits <= more
    ensures MadeAll(es, ts, more)
    decreases es, 2
  {
    if es != [] {
      MadeMore(es[0], true, ts[0], lits, more);
      MadeAllMore(es[1..], ts[1..], lits, more);
    }
  }

  /** A closure's own code is what its offset selects, from then on. */
  lemma Own(e: Exp, code: Exp, clos: seq<Name>, own: seq<Lit>, lits: seq<Lit>)
    requires CodeMade(e, code, own) && NoDup(clos) && Elems(clos) == Free(e)
    ensures ClosureMade(e, Make(|lits| + 2, clos, own), lits + [Code(code, clos, own)])
  {
    assert (lits + [Code(code, clos, own)])[|lits|] == Code(code, clos, own);
  }

  /** The two passes make of every expression what they should: whatever is stored later, each offset still
      selects the closure it was made for. */
  lemma {:induction false} ConversionMade(e: Exp, used: seq<Name>, close: bool, lits: seq<Lit>)
    requires Closurize(e, used, close).Some? && NoFoo(e)
    ensures var (t, lits') := Literalize(Closurize(e, used, close).value.0, lits);
            lits <= lits' && Made(e, close, t, lits')
    decreases e, 1
  {
    match e
    case Value(_) =>
    case Var(_) =>
    case Call(f, es) => CallMade(f, es, used, lits);
    case Ifeq(a, b, y, n) => IfeqMade(a, b, y, n, used, lits);
    case Closure(_, _) =>
    case Make(_, _, _) =>
    case _ =>
      if close { ClosureIsMade(e, used, lits); } else { CodeIsMade(e, used, lits); }
  }

  lemma {:induction false} ClosureIsMade(e: Exp, used: seq<Name>, lits: seq<Lit>)
    requires (e.Lambda? || e.LambdaVar? || e.Either?) && Closurize(e, used, true).Some? && NoFoo(e)
    ensures var (t, lits') := Literalize(Closurize(e, used, true).value.0, lits);
            lits <= lits' && ClosureMade(e, t, lits')
    decreases e, 0, 1
  {
    hide Made, ClosureMade, NoDup;
    var Closure(code, clos) := Closurize(e, used, true).value.0;
    var (code', own) := Literalize(code, []);
    match e {
    case Lambda(fs, b) =>
      ClosurizeUses(b, [], true);
      WrapUses(Closurize(b, [], true).value.1, used, fs, Free(b));
      ConversionMade(b, [], true, []);
    case LambdaVar(_, fs, b) =>
      ClosurizeUses(b, [], true);
      WrapUses(Closurize(b, [], true).value.1, used, fs, Free(b));
      ConversionMade(b, [], true, []);
    case Either(f, alt) =>
      EitherMade(f, alt, [], []);
      ClosurizeUses(f, [], false);
      ClosurizeUses(alt, Closurize(f, [], false).value.1, false);
    }
    NothingTwice();
    Own(e, code', clos, own, lits);
  }

  lemma NothingTwice()
    ensures NoDup<Name>([]) && Elems<Name>([]) == {}
  {
  }

  lemma {:induction false} EitherMade(f: Exp, alt: Exp, used: seq<Name>, lits: seq<Lit>)
    requires Closurize(f, used, false).Some? && NoFoo(f) && NoFoo(alt)
    requires Closurize(alt, Closurize(f, used, false).value.1, false).Some?
    ensures var f' := Closurize(f, used, false).value;
            var (t, lits') := Literalize(Either(f'.0, Closurize(alt, f'.1, false).value.0), lits);
            lits <= lits' && CodeMade(Either(f, alt), t, lits')
    decreases Either(f, alt), 0, 0
  {
    var f' := Closurize(f, used, false).value;
    var alt' := Closurize(alt, f'.1, false).value;
    ConversionMade(f, used, false, lits);
    var (ft, lits1) := Literalize(f'.0, lits);
    ConversionMade(alt, f'.1, false, lits1);
    MadeMore(f, false, ft, lits1, Literalize(alt'.0, lits1).1);
  }

  lemma {:induction false} CodeIsMade(e: Exp, used: seq<Name>, lits: seq<Lit>)
    requires (e.Lambda? || e.LambdaVar? || e.Either?) && Closurize(e, used, false).Some? && NoFoo(e)
    ensures var (t, lits') := Literalize(Closurize(e, used, false).value.0, lits);
            lits <= lits' && CodeMade(e, t, lits')
    decreases e, 0, 1
  {
    match e
    case Lambda(fs, b) => ConversionMade(b, [], true, lits);
    case LambdaVar(_, fs, b) => ConversionMade(b, [], true, lits);
    case Either(f, alt) => EitherMade(f, alt, used, lits);
  }

  lemma {:induction false} IfeqMade(a: Exp, b: Exp, y: Exp, n: Exp, used: seq<Name>, lits: seq<Lit>)
    requires Closurize(Ifeq(a, b, y, n), used, true).Some? && NoFoo(Ifeq(a, b, y, n))
    ensures var (t, lits') := Literalize(Closurize(Ifeq(a, b, y, n), used, true).value.0, lits);
            lits <= lits' && Made(Ifeq(a, b, y, n), true, t, lits')
    decreases Ifeq(a, b, y, n), 0
  {
    var a' := Closurize(a, used, true).value;
    var b' := Closurize(b, a'.1, true).value;
    var y' := Closurize(y, b'.1, true).value;
    var n' := Closurize(n, y'.1, true).value;
    ConversionMade(a, used, true, lits);
    var (at, lits1) := Literalize(a'.0, lits);
    ConversionMade(b, a'.1, true, lits1);
    var (bt, lits2) := Literalize(b'.0, lits1);
    ConversionMade(y, b'.1, true, lits2);
    var (yt, lits3) := Literalize(y'.0, lits2);
    ConversionMade(n, y'.1, true, lits3);
    var lits4 := Literalize(n'.0, lits3).1;
    MadeMore(a, true, at, lits1, lits4);
    MadeMore(b, true, bt, lits2, lits4);
    MadeMore(y, true, yt, lits3, lits4);
  }

  lemma {:induction false} CallMade(f: Exp, es: seq<Exp>, used: seq<Name>, lits: seq<Lit>)
    requires Closurize(Call(f, es), used, true).Some? && NoFoo(Call(f, es))
    ensures var (t, lits') := Literalize(Closurize(Call(f, es), used, true).value.0, lits);
            lits <= lits' && Made(Call(f, es), true, t, lits')
    decreases Call(f, es), 0
  {
    if Primop(f) {
      PrimMade(f, es, used, lits);
    } else {
      var g := Closurize(f, used, false).value;
      ConversionMade(f, used, false, lits);
      var (ft, lits1) := Literalize(g.0, lits);
      AllMade(es, g.1, lits1);
      MadeMore(f, false, ft, lits1, LiteralizeAll(ClosurizeAll(es, g.1).value.0, lits1).1);
      assert !Primop(g.0);
    }
  }

  lemma {:induction false} PrimMade(f: Exp, es: seq<Exp>, used: seq<Name>, lits: seq<Lit>)
    requires Primop(f) && Closurize(Call(f, es), used, true).Some? && NoFoo(Call(f, es))
    ensures var (t, lits') := Literalize(Closurize(Call(f, es), used, true).value.0, lits);
            lits <= lits' && Made(Call(f, es), true, t, lits')
    decreases Call(f, es), 0, 0
  {
    var c := Closurize(Call(f, es), used, true).value.0;
    if es[0].Lambda? {
      var k := Closurize(es[0], used, false).value;
      ConversionMade(es[0], used, false, lits);
      var (kt, lits1) := Literalize(k.0, lits);
      AllMade(es[1..], k.1, lits1);
      var rest := ClosurizeAll(es[1..], k.1).value.0;
      assert c == Call(f, [k.0] + rest) && ([k.0] + rest)[1..] == rest;
      var (rt, lits2) := LiteralizeAll(rest, lits1);
      assert LiteralizeAll([k.0] + rest, lits) == ([kt] + rt, lits2) && ([kt] + rt)[1..] == rt;
      MadeMore(es[0], false, kt, lits1, lits2);
    } else {
      var k := Forward(es[0].name);
      var used1 := Union(used, Diff(Take(Foo, Take(es[0].name, [])), [Foo]));
      AllMade(es[1..], used1, lits);
      var rest := ClosurizeAll(es[1..], used1).value.0;
      assert c == Call(f, [k] + rest) && ([k] + rest)[1..] == rest;
      ForwardStays(es[0].name, lits);
      var (rt, lits2) := LiteralizeAll(rest, lits);
      assert LiteralizeAll([k] + rest, lits) == ([k] + rt, lits2) && ([k] + rt)[1..] == rt;
    }
  }

  lemma ForwardStays(k: Name, lits: seq<Lit>)
    ensures Literalize(Forward(k), lits) == (Forward(k), lits)
  {
    var es := [Var(Foo)];
    assert LiteralizeAll(es[1..], lits) == ([], lits);
    assert Literalize(es[0], lits) == (es[0], lits) && [es[0]] + [] == es;
    assert LiteralizeAll(es, lits) == (es, lits);
    assert Literalize(Var(k), lits) == (Var(k), lits);
    assert Literalize(Call(Var(k), es), lits) == (Call(Var(k), es), lits);
  }

  lemma {:induction false} AllMade(es: seq<Exp>, used: seq<Name>, lits: seq<Lit>)
    requires ClosurizeAll(es, used).Some? && NoFooAll(es)
    ensures var (ts, lits') := LiteralizeAll(ClosurizeAll(es, used).value.0, lits);
            lits <= lits' && MadeAll(es, ts, lits')
    decreases es, 2
  {
    if es != [] {
      var first := Closurize(es[0], used, true).value;
      ConversionMade(es[0], used, true, lits);
      var (t, lits1) := Literalize(first.0, lits);
      AllMade(es[1..], first.1, lits1);
      var rest := ClosurizeAll(es[1..], first.1).value.0;
      assert ([first.0] + rest)[1..] == rest;
      var (ts, lits2) := LiteralizeAll(rest, lits1);
      assert LiteralizeAll([first.0] + rest, lits) == ([t] + ts, lits2) && ([t] + ts)[1..] == ts;
      MadeMore(es[0], true, t, lits1, lits2);
    }
  }

  // ---- When it does not ----

  /** Only what NoFoo allows can have been made as it should: a continuation `_foo` is not passed on to, but
      captured. */
  lemma {:induction false} MadeNoFoo(e: Exp, close: bool, t: Exp, lits: seq<Lit>)
    requires Made(e, close, t, lits)
    ensures NoFoo(e)
    decreases e, 1
  {
    match e
    case Value(_) =>
    case Var(_) =>
    case Call(f, es) =>
      if Primop(f) {
        if es[0].Lambda? { MadeNoFoo(es[0], false, t.rands[0], lits); } else { ForwardPassesOn(es[0].name); }
        MadeAllNoFoo(es[1..], t.rands[1..], lits);
      } else {
        MadeNoFoo(f, false, t.rator, lits);
        MadeAllNoFoo(es, t.rands, lits);
      }
    case Ifeq(a, b, y, n) =>
      MadeNoFoo(a, true, t.a, lits);
      MadeNoFoo(b, true, t.b, lits);
      MadeNoFoo(y, true, t.yes, lits);
      MadeNoFoo(n, true, t.no, lits);
    case Closure(_, _) =>
    case Make(_, _, _) =>
    case _ =>
      if close { CodeNoFoo(e, lits[t.offset-2].code, t.lits); } else { CodeNoFoo(e, t, lits); }
  }

  lemma {:induction false} CodeNoFoo(e: Exp, t: Exp, lits: seq<Lit>)
    requires CodeMade(e, t, lits)
    ensures NoFoo(e)
    decreases e, 0
  {
    match e
    case Lambda(_, b) => MadeNoFoo(b, true, t.body, lits);
    case LambdaVar(_, _, b) => MadeNoFoo(b, true, t.body, lits);
    case Either(f, alt) =>
      MadeNoFoo(f, false, t.func, lits);
      MadeNoFoo(alt, false, t.alt, lits);
  }

  lemma {:induction false} MadeAllNoFoo(es: seq<Exp>, ts: seq<Exp>, lits: seq<Lit>)
    requires MadeAll(es, ts, lits)
    ensures NoFooAll(es)
    decreases es, 2
  {
    if es != [] {
      MadeNoFoo(es[0], true, ts[0], lits);
      MadeAllNoFoo(es[1..], ts[1..], lits);
    }
  }

  /** An expression that can be converted is converted as it should be if and only if no primitive in it continues
      with the variable `_foo`. */
  lemma ConversionExact(e: Exp, used: seq<Name>, close: bool, lits: seq<Lit>)
    requires Convertible(e)
    ensures Closurize(e, used, close).Some?
    ensures var (t, lits') := Literalize(Closurize(e, used, close).value.0, lits);
            Made(e, close, t, lits') <==> NoFoo(e)
  {
    ClosurizeSucceeds(e, used, close);
    var (t, lits') := Literalize(Closurize(e, used, close).value.0, lits);
    if NoFoo(e) { ConversionMade(e, used, close, lits); }
    if Made(e, close, t, lits') { MadeNoFoo(e, close, t, lits'); }
  }

  // ---- Running code ----

  datatype Env = Empty | Bind(x: Name, v: Val, rest: Env)

  /** Clo: a procedure with what it holds: before conversion the whole environment and no literals. */
  datatype Val = Imm(c: Const) | Pair(head: Val, tail: Val) | Clo(env: Env, code: Exp, lits: seq<Lit>)

  datatype State = Ev(e: Exp, env: Env, lits: seq<Lit>) | Ap(f: Val, args: seq<Val>)

  /** What the primitives compute on numbers. */
  type Delta = (nat, seq<int>) -> Option<int>

  function Lookup(env: Env, x: Name): Option<Val> {
    match env
    case Empty => None
    case Bind(y, v, rest) => if x == y then Some(v) else Lookup(rest, x)
  }

  function Dom(env: Env): set<Name> {
    match env
    case Empty => {}
    case Bind(x, _, rest) => {x} + Dom(rest)
  }

  function BindAll(env: Env, fs: seq<Name>, vs: seq<Val>): Env
    requires |fs| == |vs|
    decreases |fs|
  {
    if fs == [] then env else BindAll(Bind(fs[0], vs[0], env), fs[1..], vs[1..])
  }

  function Capture(env: Env, names: seq<Name>): (vs: Option<seq<Val>>)
    ensures vs.Some? ==> |vs.value| == |names|
  {
    if names == [] then Some([])
    else
      var v, rest := Lookup(env, names[0]), Capture(env, names[1..]);
      if v.None? || rest.None? then None else Some([v.value] + rest.value)
  }

  /** A procedure made in this environment, from code that is stored among the literals. */
  function MakeClosure(offset: nat, clos: seq<Name>, own: seq<Lit>, env: Env, lits: seq<Lit>): Option<Val> {
    if !(2 <= offset < |lits| + 2) || !lits[offset-2].Code? || lits[offset-2].lits != own then None
    else
      var vs := Capture(env, clos);
      if vs.None? then None else Some(Clo(BindAll(Empty, clos, vs.value), lits[offset-2].code, own))
  }

  function AtomVal(e: Exp, env: Env, lits: seq<Lit>): Option<Val> {
    match e
    case Value(c) => Some(Imm(c))
    case Var(x) => Lookup(env, x)
    case Lambda(_, _) => Some(Clo(env, e, lits))
    case LambdaVar(_, _, _) => Some(Clo(env, e, lits))
    case Either(_, _) => Some(Clo(env, e, lits))
    case Make(offset, clos, own) => MakeClosure(offset, clos, own, env, lits)
    case _ => None
  }

  function AtomVals(es: seq<Exp>, env: Env, lits: seq<Lit>): (vs: Option<seq<Val>>)
    ensures vs.Some? ==> |vs.value| == |es|
  {
    if es == [] then Some([])
    else
      var v, rest := AtomVal(es[0], env, lits), AtomVals(es[1..], env, lits);
      if v.None? || rest.None? then None else Some([v.value] + rest.value)
  }

  function ListOf(vs: seq<Val>): Val {
    if vs == [] then Imm(Null) else Pair(vs[0], ListOf(vs[1..]))
  }

  datatype Entry = Entry(formals: seq<Name>, args: seq<Val>, body: Exp)

  predicate Even(entry: Option<Entry>) {
    entry.Some? ==> |entry.value.formals| == |entry.value.args|
  }

  /** The first clause that accepts the arguments, and what its formals become. */
  function Enter(code: Exp, args: seq<Val>): (r: Option<Entry>)
    ensures Even(r)
  {
    match code
    case Lambda(fs, b) => if |fs| == |args| then Some(Entry(fs, args, b)) else None
    case LambdaVar(fixed, fs, b) =>
      if fixed then if |fs| == |args| then Some(Entry(fs, args, b)) else None
      else if |fs| == 0 || |args| < |fs| - 1 then None
      else Some(Entry(fs, args[..|fs|-1] + [ListOf(args[|fs|-1..])], b))
    case Either(f, alt) =>
      var first := Enter(f, args);
      if first.Some? then first else Enter(alt, args)
    case _ => None
  }

  /** eq?: for two procedures or two pairs it is a matter of where they are stored, which is not modelled. */
  function Same(v: Val, w: Val): Option<bool> {
    if v.Imm? && w.Imm? then Some(v == w)
    else if v.Imm? || w.Imm? || v.Pair? != w.Pair? then Some(false)
    else None
  }

  function Numbers(vs: seq<Val>): Option<seq<int>> {
    if vs == [] then Some([])
    else
      var rest := Numbers(vs[1..]);
      if vs[0].Imm? && vs[0].c.Num? && rest.Some? then Some([vs[0].c.n] + rest.value) else None
  }

  function Compute(delta: Delta, op: nat, vs: seq<Val>): Option<Val> {
    var ns := Numbers(vs);
    if ns.None? then None
    else
      var r := delta(op, ns.value);
      if r.None? then None else Some(Imm(Num(r.value)))
  }

  /** One step of code, converted or not; a primitive passes its result to its first argument. */
  function Step(delta: Delta, s: State): Option<State> {
    match s
    case Ev(Call(f, es), env, lits) =>
      var vf, vs := AtomVal(f, env, lits), AtomVals(es, env, lits);
      if vf.None? || vs.None? then None else Some(Ap(vf.value, vs.value))
    case Ev(Ifeq(a, b, y, n), env, lits) =>
      var va, vb := AtomVal(a, env, lits), AtomVal(b, env, lits);
      if va.None? || vb.None? then None
      else
        var same := Same(va.value, vb.value);
        if same.None? then None else Some(Ev(if same.value then y else n, env, lits))
    case Ap(Clo(env, code, lits), args) =>
      var entry := Enter(code, args);
      if entry.None? then None
      else Some(Ev(entry.value.body, BindAll(env, entry.value.formals, entry.value.args), lits))
    case Ap(Imm(Op(op)), args) =>
      if args == [] then None
      else
        var r := Compute(delta, op, args[1..]);
        if r.None? then None else Some(Ap(args[0], [r.value]))
    case _ => None
  }

  function Steps(delta: Delta, n: nat, s: State): Option<State> {
    if n == 0 then Some(s)
    else
      var s' := Step(delta, s);
      if s'.None? then None else Steps(delta, n - 1, s'.value)
  }

  lemma {:induction false} StepsJoin(delta: Delta, m: nat, n: nat, s: State, t: State)
    requires Steps(delta, m, s) == Some(t)
    ensures Steps(delta, m + n, s) == Steps(delta, n, t)
    decreases m
  {
    if m > 0 { StepsJoin(delta, m - 1, n, Step(delta, s).value, t); }
  }

  // ---- What a converted value stands for ----

  ghost predicate Rel(v: Val, w: Val)
    decreases v, 0
  {
    match v
    case Imm(_) => w == v
    case Pair(a, d) => w.Pair? && Rel(a, w.head) && Rel(d, w.tail)
    case Clo(env, code, _) =>
      w.Clo? && CodeMade(code, w.code, w.lits) && Free(code) <= Dom(env) && EnvRel(env, w.env, Free(code))
  }

  /** What is needed of an environment has its counterpart in the other. */
  ghost predicate EnvRel(env: Env, tenv: Env, need: set<Name>)
    decreases env, 1
  {
    match env
    case Empty => true
    case Bind(x, v, rest) =>
      && (x in need ==> Lookup(tenv, x).Some? && Rel(v, Lookup(tenv, x).value))
      && EnvRel(rest, tenv, need - {x})
  }

  ghost predicate RelAll(vs: seq<Val>, ws: seq<Val>) {
    |vs| == |ws| && forall i :: 0 <= i < |vs| ==> Rel(vs[i], ws[i])
  }

  /** The continuation v, as the procedure that passes its argument on to it. */
  ghost predicate Forwards(v: Val, w: Val) {
    && w.Clo? && w.code.Lambda? && w.code.body.Call? && w.code.body.rator.Var?
    && var k := w.code.body.rator.name;
    && w.code == Forward(k) && PassesOn(w.code, k) && Lookup(w.env, k).Some? && Rel(v, Lookup(w.env, k).value)
  }

  ghost predicate ArgsRel(f: Val, vs: seq<Val>, ws: seq<Val>) {
    || RelAll(vs, ws)
    || (f.Imm? && f.c.Op? && |vs| == |ws| > 0 && Forwards(vs[0], ws[0]) && RelAll(vs[1..], ws[1..]))
  }

  ghost predicate Related(s: State, t: State) {
    match s
    case Ev(e, env, _) =>
      t.Ev? && Made(e, true, t.e, t.lits) && Free(e) <= Dom(env) && EnvRel(env, t.env, Free(e))
    case Ap(f, vs) => t.Ap? && Rel(f, t.f) && ArgsRel(f, vs, t.args)
  }

  lemma {:induction false} EnvRelLookup(env: Env, tenv: Env, need: set<Name>, x: Name)
    requires EnvRel(env, tenv, need) && x in need && x in Dom(env)
    ensures Lookup(env, x).Some? && Lookup(tenv, x).Some? && Rel(Lookup(env, x).value, Lookup(tenv, x).value)
  {
    match env
    case Bind(y, v, rest) => if x != y { EnvRelLookup(rest, tenv, need - {y}, x); }
  }

  lemma {:induction false} EnvRelAgree(env: Env, t1: Env, n1: set<Name>, t2: Env, n2: set<Name>)
    requires EnvRel(env, t1, n1) && n2 <= n1 && forall x :: x in n2 ==> Lookup(t2, x) == Lookup(t1, x)
    ensures EnvRel(env, t2, n2)
  {
    match env
    case Empty =>
    case Bind(y, v, rest) => EnvRelAgree(rest, t1, n1 - {y}, t2, n2 - {y});
  }

  lemma {:induction false} EnvRelBindAll(env: Env, tenv: Env, need: set<Name>, fs: seq<Name>, vs: seq<Val>,
          ws: seq<Val>)
    requires EnvRel(env, tenv, need - Elems(fs)) && |fs| == |vs| && RelAll(vs, ws)
    ensures EnvRel(BindAll(env, fs, vs), BindAll(tenv, fs, ws), need)
    ensures Dom(BindAll(env, fs, vs)) == Dom(env) + Elems(fs)
    decreases |fs|
  {
    hide Rel;
    if fs == [] {
      assert need - Elems(fs) == need;
    } else {
      var env1, tenv1 := Bind(fs[0], vs[0], env), Bind(fs[0], ws[0], tenv);
      var need1 := need - Elems(fs[1..]);
      assert Elems(fs) == {fs[0]} + Elems(fs[1..]);
      assert need - Elems(fs) == need1 - {fs[0]};
      EnvRelAgree(env, tenv, need1 - {fs[0]}, tenv1, need1 - {fs[0]});
      EnvRelBindAll(env1, tenv1, need, fs[1..], vs[1..], ws[1..]);
    }
  }

  lemma {:induction false} BindAllLookup(env: Env, fs: seq<Name>, vs: seq<Val>, x: Name)
    requires |fs| == |vs|
    ensures x !in fs ==> Lookup(BindAll(env, fs, vs), x) == Lookup(env, x)
    decreases |fs|
  {
    if fs != [] { BindAllLookup(Bind(fs[0], vs[0], env), fs[1..], vs[1..], x); }
  }

  /** What is captured is found again. */
  lemma {:induction false} CaptureKeeps(tenv: Env, base: Env, clos: seq<Name>, x: Name)
    requires NoDup(clos) && Capture(tenv, clos).Some? && x in clos
    ensures Lookup(BindAll(base, clos, Capture(tenv, clos).value), x) == Lookup(tenv, x)
    decreases |clos|
  {
    var vs := Capture(tenv, clos).value;
    var rest := Capture(tenv, clos[1..]).value;
    assert vs[1..] == rest;
    if x == clos[0] {
      BindAllLookup(Bind(clos[0], vs[0], base), clos[1..], rest, x);
    } else {
      CaptureKeeps(tenv, Bind(clos[0], vs[0], base), clos[1..], x);
    }
  }

  lemma {:induction false} CaptureSucceeds(tenv: Env, clos: seq<Name>)
    requires forall x :: x in clos ==> Lookup(tenv, x).Some?
    ensures Capture(tenv, clos).Some?
  {
    if clos != [] { CaptureSucceeds(tenv, clos[1..]); }
  }

  /** A closure that has been made holds what its code needs. */
  lemma ClosureHolds(e: Exp, t: Exp, env: Env, tenv: Env, lits: seq<Lit>, need: set<Name>)
    requires ClosureMade(e, t, lits) && Free(e) <= need && Free(e) <= Dom(env) && EnvRel(env, tenv, need)
    ensures AtomVal(t, tenv, lits).Some? && Rel(Clo(env, e, []), AtomVal(t, tenv, lits).value)
  {
    forall x | x in t.clos ensures Lookup(tenv, x).Some? {
      assert x in Elems(t.clos);
      EnvRelLookup(env, tenv, need, x);
    }
    CaptureSucceeds(tenv, t.clos);
    var held := BindAll(Empty, t.clos, Capture(tenv, t.clos).value);
    forall x | x in Free(e) ensures Lookup(held, x) == Lookup(tenv, x) {
      assert x in Elems(t.clos);
      CaptureKeeps(tenv, Empty, t.clos, x);
    }
    EnvRelAgree(env, tenv, need, held, Free(e));
  }

  lemma AtomRelated(e: Exp, close: bool, t: Exp, env: Env, lits0: seq<Lit>, tenv: Env, lits: seq<Lit>, need: set<Name>)
    requires Made(e, close, t, lits) && AtomVal(e, env, lits0).Some?
    requires Free(e) <= need && Free(e) <= Dom(env) && EnvRel(env, tenv, need)
    ensures AtomVal(t, tenv, lits).Some? && Rel(AtomVal(e, env, lits0).value, AtomVal(t, tenv, lits).value)
  {
    match e
    case Value(_) =>
    case Var(x) => EnvRelLookup(env, tenv, need, x);
    case _ =>
      if close { ClosureHolds(e, t, env, tenv, lits, need); } else { EnvRelAgree(env, tenv, need, tenv, Free(e)); }
  }

  lemma {:induction false} AtomsRelated(es: seq<Exp>, ts: seq<Exp>, env: Env, lits0: seq<Lit>, tenv: Env,
          lits: seq<Lit>, need: set<Name>)
    requires MadeAll(es, ts, lits) && AtomVals(es, env, lits0).Some?
    requires FreeAll(es) <= need && FreeAll(es) <= Dom(env) && EnvRel(env, tenv, need)
    ensures AtomVals(ts, tenv, lits).Some? && RelAll(AtomVals(es, env, lits0).value, AtomVals(ts, tenv, lits).value)
  {
    hide Rel, EnvRel, Made, Free;
    if es != [] {
      AtomRelated(es[0], true, ts[0], env, lits0, tenv, lits, need);
      AtomsRelated(es[1..], ts[1..], env, lits0, tenv, lits, need);
    }
  }

  lemma {:induction false} ListRelated(vs: seq<Val>, ws: seq<Val>)
    requires RelAll(vs, ws)
    ensures Rel(ListOf(vs), ListOf(ws))
  {
    if vs != [] { ListRelated(vs[1..], ws[1..]); }
  }

  lemma RestRelated(vs: seq<Val>, ws: seq<Val>, n: nat)
    requires RelAll(vs, ws) && n <= |vs|
    ensures RelAll(vs[..n] + [ListOf(vs[n..])], ws[..n] + [ListOf(ws[n..])])
  {
    ListRelated(vs[n..], ws[n..]);
  }

  ghost predicate Entered(entry: Option<Entry>, tentry: Option<Entry>, lits: seq<Lit>, free: set<Name>) {
    if entry.None? then tentry.None?
    else
      && tentry.Some? && tentry.value.formals == entry.value.formals
      && RelAll(entry.value.args, tentry.value.args)
      && Made(entry.value.body, true, tentry.value.body, lits)
      && Free(entry.value.body) - Elems(entry.value.formals) <= free
  }

  /** A procedure and its conversion are entered at the same clause, or neither accepts the arguments. */
  lemma {:induction false} EnterRelated(e: Exp, t: Exp, lits: seq<Lit>, vs: seq<Val>, ws: seq<Val>)
    requires Made(e, false, t, lits) && RelAll(vs, ws)
    ensures Entered(Enter(e, vs), Enter(t, ws), lits, Free(e))
  {
    hide Rel;
    match e
    case LambdaVar(fixed, fs, b) =>
      if !fixed && 0 < |fs| <= |vs| + 1 { RestRelated(vs, ws, |fs| - 1); }
    case Either(f, alt) =>
      EnterRelated(f, t.func, lits, vs, ws);
      EnterRelated(alt, t.alt, lits, vs, ws);
    case _ =>
  }

  lemma {:induction false} NumbersRelated(vs: seq<Val>, ws: seq<Val>)
    requires RelAll(vs, ws) && Numbers(vs).Some?
    ensures Numbers(ws) == Numbers(vs)
  {
    if vs != [] { NumbersRelated(vs[1..], ws[1..]); }
  }

  lemma PrimArgs(c: Const, v: Val, vs: seq<Val>, w: Val, ws: seq<Val>)
    requires c.Op? && RelAll(vs, ws) && (Rel(v, w) || Forwards(v, w))
    ensures ArgsRel(Imm(c), [v] + vs, [w] + ws)
  {
    hide Rel, Forwards;
    assert ([v] + vs)[1..] == vs && ([w] + ws)[1..] == ws;
    if Rel(v, w) { assert RelAll([v] + vs, [w] + ws); }
  }

  lemma ForwardHolds(v: Val, k: Name, tenv: Env, lits: seq<Lit>)
    requires PassesOn(Forward(k), k) && Lookup(tenv, k).Some? && Rel(v, Lookup(tenv, k).value)
    ensures Forwards(v, Clo(tenv, Forward(k), lits))
  {
  }

  lemma PrimCallRelated(delta: Delta, f: Exp, es: seq<Exp>, env: Env, lits0: seq<Lit>, t: Exp, tenv: Env,
                        lits: seq<Lit>)
    requires Primop(f) && Made(Call(f, es), true, t, lits) && AtomVals(es, env, lits0).Some?
    requires FreeAll(es) <= Dom(env) && EnvRel(env, tenv, FreeAll(es))
    ensures AtomVals(t.rands, tenv, lits).Some?
    ensures ArgsRel(Imm(f.val), AtomVals(es, env, lits0).value, AtomVals(t.rands, tenv, lits).value)
  {
    hide EnvRel, Lookup, Rel, RelAll, ArgsRel, Forwards;
    var need := FreeAll(es);
    AtomsRelated(es[1..], t.rands[1..], env, lits0, tenv, lits, need);
    var v, vs := AtomVal(es[0], env, lits0).value, AtomVals(es[1..], env, lits0).value;
    var ws := AtomVals(t.rands[1..], tenv, lits).value;
    if es[0].Lambda? {
      AtomRelated(es[0], false, t.rands[0], env, lits0, tenv, lits, need);
    } else {
      EnvRelLookup(env, tenv, need, es[0].name);
      ForwardHolds(v, es[0].name, tenv, lits);
    }
    PrimArgs(f.val, v, vs, AtomVal(t.rands[0], tenv, lits).value, ws);
  }

  lemma CallRelated(delta: Delta, f: Exp, es: seq<Exp>, env: Env, lits0: seq<Lit>, t: Exp, tenv: Env, lits: seq<Lit>)
    requires Related(Ev(Call(f, es), env, lits0), Ev(t, tenv, lits)) && Step(delta, Ev(Call(f, es), env, lits0)).Some?
    ensures Step(delta, Ev(t, tenv, lits)).Some?
    ensures Related(Step(delta, Ev(Call(f, es), env, lits0)).value, Step(delta, Ev(t, tenv, lits)).value)
  {
    hide Rel, EnvRel, Lookup, Free;
    var need := Free(Call(f, es));
    assert need == Free(f) + FreeAll(es) by { FreeCall(f, es); }
    if Primop(f) {
      EnvRelAgree(env, tenv, need, tenv, FreeAll(es));
      PrimCallRelated(delta, f, es, env, lits0, t, tenv, lits);
      AtomConst(f.val);
    } else {
      AtomRelated(f, false, t.rator, env, lits0, tenv, lits, need);
      AtomsRelated(es, t.rands, env, lits0, tenv, lits, need);
    }
  }

  lemma FreeCall(f: Exp, es: seq<Exp>)
    ensures Free(Call(f, es)) == Free(f) + FreeAll(es)
  {
  }

  lemma AtomConst(c: Const)
    ensures Rel(Imm(c), Imm(c))
  {
  }

  lemma SameRelated(va: Val, wa: Val, vb: Val, wb: Val)
    requires Rel(va, wa) && Rel(vb, wb) && Same(va, vb).Some?
    ensures Same(wa, wb) == Same(va, vb)
  {
  }

  lemma IfeqRelated(delta: Delta, e: Exp, env: Env, lits0: seq<Lit>, t: Exp, tenv: Env, lits: seq<Lit>)
    requires e.Ifeq? && Related(Ev(e, env, lits0), Ev(t, tenv, lits)) && Step(delta, Ev(e, env, lits0)).Some?
    ensures Step(delta, Ev(t, tenv, lits)).Some?
    ensures Related(Step(delta, Ev(e, env, lits0)).value, Step(delta, Ev(t, tenv, lits)).value)
  {
    hide Rel, EnvRel, Lookup;
    var need := Free(e);
    AtomRelated(e.a, true, t.a, env, lits0, tenv, lits, need);
    AtomRelated(e.b, true, t.b, env, lits0, tenv, lits, need);
    SameRelated(AtomVal(e.a, env, lits0).value, AtomVal(t.a, tenv, lits).value,
                AtomVal(e.b, env, lits0).value, AtomVal(t.b, tenv, lits).value);
    EnvRelAgree(env, tenv, need, tenv, Free(e.yes));
    EnvRelAgree(env, tenv, need, tenv, Free(e.no));
  }

  lemma EntryRelated(delta: Delta, v: Val, vs: seq<Val>, w: Val, ws: seq<Val>)
    requires v.Clo? && Rel(v, w) && RelAll(vs, ws) && Step(delta, Ap(v, vs)).Some?
    ensures Step(delta, Ap(w, ws)).Some? && Related(Step(delta, Ap(v, vs)).value, Step(delta, Ap(w, ws)).value)
  {
    hide EnvRel;
    assert Made(v.code, false, w.code, w.lits);
    EnterRelated(v.code, w.code, w.lits, vs, ws);
    var entry, tentry := Enter(v.code, vs).value, Enter(w.code, ws).value;
    var need := Free(entry.body);
    EnvRelAgree(v.env, w.env, Free(v.code), w.env, need - Elems(entry.formals));
    EnvRelBindAll(v.env, w.env, need, entry.formals, entry.args, tentry.args);
  }

  /** Where the procedure that is put in place of k goes: to k with its argument, in two steps; but with `_foo`
      for k to the argument itself, with the argument. */
  lemma ForwardGoes(delta: Delta, k: Name, env: Env, lits: seq<Lit>, r: Val)
    requires k != Foo ==> Lookup(env, k).Some?
    ensures Steps(delta, 2, Ap(Clo(env, Forward(k), lits), [r]))
         == Some(Ap(if k == Foo then r else Lookup(env, k).value, [r]))
  {
    var s, tenv, es := Ap(Clo(env, Forward(k), lits), [r]), Bind(Foo, r, env), [Var(Foo)];
    assert BindAll(env, [Foo], [r]) == tenv by { assert [Foo][1..] == [] && [r][1..] == []; }
    assert Step(delta, s) == Some(Ev(Call(Var(k), es), tenv, lits));
    assert AtomVals(es, tenv, lits) == Some([r]) by {
      assert es[1..] == [] && AtomVals(es[1..], tenv, lits) == Some([]);
      assert AtomVal(es[0], tenv, lits) == Some(r) && [r] + [] == [r];
    }
    var t := Ap(if k == Foo then r else Lookup(env, k).value, [r]);
    assert Step(delta, Ev(Call(Var(k), es), tenv, lits)) == Some(t);
    TwoSteps(delta, s, Ev(Call(Var(k), es), tenv, lits), t);
  }

  /** A forwarding continuation gets there in two more steps. */
  lemma ForwardRuns(delta: Delta, v: Val, w: Val, r: Val) returns (t: State)
    requires Forwards(v, w) && r.Imm?
    ensures Steps(delta, 2, Ap(w, [r])) == Some(t) && Related(Ap(v, [r]), t)
  {
    hide EnvRel, CodeMade, Steps;
    var k := w.code.body.rator.name;
    ForwardPassesOn(k);
    ForwardGoes(delta, k, w.env, w.lits, r);
    t := Ap(Lookup(w.env, k).value, [r]);
    assert RelAll([r], [r]);
  }

  lemma TwoSteps(delta: Delta, s: State, mid: State, t: State)
    requires Step(delta, s) == Some(mid) && Step(delta, mid) == Some(t)
    ensures Steps(delta, 2, s) == Some(t)
  {
    assert Steps(delta, 0, t) == Some(t);
    assert Steps(delta, 1, mid) == Some(t);
  }

  lemma PrimRelated(delta: Delta, op: nat, vs: seq<Val>, w: Val, ws: seq<Val>) returns (m: nat, t: State)
    requires Rel(Imm(Op(op)), w) && ArgsRel(Imm(Op(op)), vs, ws) && Step(delta, Ap(Imm(Op(op)), vs)).Some?
    ensures Steps(delta, m, Ap(w, ws)) == Some(t) && Related(Step(delta, Ap(Imm(Op(op)), vs)).value, t)
    ensures m == 1 || m == 3
  {
    hide EnvRel, CodeMade, Lookup;
    NumbersRelated(vs[1..], ws[1..]);
    var r := Compute(delta, op, vs[1..]).value;
    assert Step(delta, Ap(w, ws)) == Some(Ap(ws[0], [r]));
    if RelAll(vs, ws) {
      m, t := 1, Ap(ws[0], [r]);
      assert Steps(delta, 0, t) == Some(t);
      assert RelAll([r], [r]) && Rel(vs[0], ws[0]);
    } else {
      t := ForwardRuns(delta, vs[0], ws[0], r);
      m := 3;
    }
  }

  /** Whatever one step of the original does, the converted code does in one step or three. */
  lemma StepRelated(delta: Delta, s: State, t: State) returns (m: nat, t': State)
    requires Related(s, t) && Step(delta, s).Some?
    ensures Steps(delta, m, t) == Some(t') && Related(Step(delta, s).value, t') && (m == 1 || m == 3)
  {
    hide Rel, EnvRel, Made, Enter, Lookup, CodeMade;
    if s.Ap? && s.f.Imm? {
      RelImm(s.f, t.f);
      m, t' := PrimRelated(delta, s.f.c.op, s.args, t.f, t.args);
    } else {
      if s.Ap? { EntryRelated(delta, s.f, s.args, t.f, t.args); }
      else if s.e.Call? { CallRelated(delta, s.e.rator, s.e.rands, s.env, s.lits, t.e, t.env, t.lits); }
      else { IfeqRelated(delta, s.e, s.env, s.lits, t.e, t.env, t.lits); }
      m, t' := 1, Step(delta, t).value;
      assert Steps(delta, 0, t') == Some(t');
    }
  }

  lemma RelImm(v: Val, w: Val)
    requires v.Imm? && Rel(v, w)
    ensures w == v
  {
  }

  lemma {:induction false} StepsRelated(delta: Delta, n: nat, s: State, t: State) returns (m: nat, t': State)
    requires Related(s, t) && Steps(delta, n, s).Some?
    ensures Steps(delta, m, t) == Some(t') && Related(Steps(delta, n, s).value, t')
  {
    hide Related, Step;
    if n == 0 {
      m, t' := 0, t;
    } else {
      var m1, t1 := StepRelated(delta, s, t);
      var m2;
      m2, t' := StepsRelated(delta, n - 1, Step(delta, s).value, t1);
      StepsJoin(delta, m1, m2, t, t1);
      m := m1 + m2;
    }
  }

  // ---- Whole programs ----

  /** A program: a procedure without free variables. */
  predicate Program(e: Exp) {
    (e.Lambda? || e.LambdaVar? || e.Either?) && Free(e) == {} && Convertible(e)
  }

  lemma NoElems(s: seq<Name>)
    ensures Elems(s) == {} ==> s == []
  {
    if s != [] { assert s[0] in Elems(s); }
  }

  lemma BuildIs(e: Exp)
    requires Program(e) && NoFoo(e)
    ensures Build(e).Some? && Build(e).value.Code? && Build(e).value.clos == []
    ensures CodeMade(e, Build(e).value.code, Build(e).value.lits)
  {
    ClosurizeSucceeds(e, [], true);
    ClosureIsMade(e, [], []);
    var Closure(code, clos) := Closurize(e, [], true).value.0;
    NoElems(clos);
  }

  /** A converted program does what the original does: if the original, given some arguments, ends by passing
      values to a constant, then so does the built code, given the same. */
  lemma BuiltRuns(delta: Delta, e: Exp, n: nat, vs: seq<Val>, ws: seq<Val>, end: Const, results: seq<Val>)
    returns (m: nat, converted: seq<Val>)
    requires Program(e) && NoFoo(e) && RelAll(vs, ws) && !end.Op?
    requires Steps(delta, n, Ap(Clo(Empty, e, []), vs)) == Some(Ap(Imm(end), results))
    ensures Build(e).Some? && Build(e).value.Code? && RelAll(results, converted)
    ensures Steps(delta, m, Ap(Clo(Empty, Build(e).value.code, Build(e).value.lits), ws))
         == Some(Ap(Imm(end), converted))
  {
    BuildIs(e);
    var w := Clo(Empty, Build(e).value.code, Build(e).value.lits);
    assert Related(Ap(Clo(Empty, e, []), vs), Ap(w, ws));
    var t;
    m, t := StepsRelated(delta, n, Ap(Clo(Empty, e, []), vs), Ap(w, ws));
    converted := t.args;
  }

  /** With `_foo` as the name of a primitive's continuation the closure would not hold it. */
  lemma FooIsLost(op: nat)
    ensures var e := Lambda([], Call(Value(Op(op)), [Var(Foo)]));
            && Free(e) == {Foo} && Convertible(e)
            && Closurize(e, [], true).Some? && Closurize(e, [], true).value.0.clos == []
  {
    var es := [Var(Foo)];
    var call := Call(Value(Op(op)), es);
    assert es[1..] == [] && ClosurizeAll(es[1..], []) == Some(([], []));
    assert Take(Foo, Take(Foo, [])) == [Foo] && [Foo][1..] == [] && Diff([Foo], [Foo]) == [];
    assert Closurize(call, [], true) == Some((Call(Value(Op(op)), [Forward(Foo)] + []), []));
    assert FreeAll(es) == {Foo} + FreeAll(es[1..]);
    assert Free(call) == {Foo};
    assert ConvertibleAll(es[1..]) && ConvertibleAll(es) && Convertible(call);
  }
}
