/** Calls with any number of arguments: arity checks, packing of extra arguments, and apply. */
module Variadic {
  import opened Vm
  import opened Wrappers

  const JAF := 11
  const JAFX := 12
  const ARITY_ERROR := 17
  const NR := 256
  const CR := 16

  datatype Val = Null | Pair(car: Val, cdr: Val) | Atom(id: int)

  function ListOf(vs: seq<Val>): Val {
    if vs == [] then Null else Pair(vs[0], ListOf(vs[1..]))
  }

  /** The elements of a list, as far as it is one. */
  function Items(v: Val): seq<Val> {
    if v.Pair? then [v.car] + Items(v.cdr) else []
  }

  /** One lambda of a case-lambda: formals, the continuation and a rest list included, and its code. */
  datatype Clause = Clause(exact: bool, formals: nat, body: seq<Byte>)

  predicate Accepts(c: Clause, nargs: nat) {
    if c.exact then nargs == c.formals else nargs + 1 >= c.formals
  }

  function Header(c: Clause): seq<Byte>
    requires 0 < c.formals <= 256 && (c.exact ==> c.formals < 256) && |c.body| <= 0xffff
  {
    var len := |c.body|;
    [if c.exact then JAF else JAFX, if c.exact then c.formals else c.formals - 1, len / 256 % 256, len % 256]
  }

  predicate Encodable(cs: seq<Clause>) {
    forall c :: c in cs ==> 0 < c.formals <= 256 && (c.exact ==> c.formals < 256) && |c.body| <= 0xffff
  }

  /** assemble-code, with the code of the other clauses for a tail. */
  function Chain(cs: seq<Clause>): seq<Byte>
    requires Encodable(cs)
  {
    if cs == [] then [ARITY_ERROR] else Header(cs[0]) + cs[0].body + Chain(cs[1..])
  }

  /** Index of the first clause that accepts the call, or the number of clauses. */
  function First(cs: seq<Clause>, nargs: nat): (i: nat)
    ensures i <= |cs| && (i < |cs| ==> Accepts(cs[i], nargs))
    ensures forall j :: 0 <= j < i ==> !Accepts(cs[j], nargs)
  {
    if cs == [] || Accepts(cs[0], nargs) then 0 else 1 + First(cs[1..], nargs)
  }

  /** What JAFX makes of the registers: extra arguments become a list in the register of the last formal. */
  function Packed(regs: seq<Val>, arity: nat, acc: nat): seq<Val>
    requires arity <= acc && acc + 3 <= |regs| && arity + 3 < |regs|
  {
    regs[arity + 3 := ListOf(regs[arity + 3..acc + 3])]
  }

  /** JAFX: whether the call is accepted, with its extra arguments packed. */
  method Pack(R: array<Val>, arity: nat, acc: nat) returns (ok: bool)
    requires acc + 3 <= R.Length && arity + 3 < R.Length
    modifies R
    ensures ok == (acc >= arity)
    ensures R[..] == if acc >= arity then Packed(old(R[..]), arity, acc) else old(R[..])
  {
    if acc < arity {
      return false;
    }
    var n, tail := acc, Null;
    while n > arity
      invariant arity <= n <= acc
      invariant tail == ListOf(R[n + 3..acc + 3])
    {
      assert R[n + 2..acc + 3] == [R[n + 2]] + R[n + 3..acc + 3];
      tail := Pair(R[n + 2], tail);
      n := n - 1;
    }
    R[n + 3] := tail;
    ok := true;
  }

  datatype Entry = Entered(ip: nat, acc: nat) | ArityError

  lemma Three(a: seq<Byte>, b: seq<Byte>, c: seq<Byte>)
    ensures var s := a + b + c;
            && |s| == |a| + |b| + |c|
            && (forall i :: 0 <= i < |a| ==> s[i] == a[i])
            && s[|a|..] == b + c && s[|a| + |b|..] == c
  {
  }

  lemma HeaderReads(c: Clause)
    requires 0 < c.formals <= 256 && (c.exact ==> c.formals < 256) && |c.body| <= 0xffff
    ensures |Header(c)| == 4 && Wide(Header(c)[3], Header(c)[2]) == |c.body|
    ensures Header(c)[0] == (if c.exact then JAF else JAFX)
    ensures Header(c)[1] == if c.exact then c.formals else c.formals - 1
  {
  }

  /** The arity instruction at ip is that of the first of the clauses cs. */
  lemma Here(code: seq<Byte>, ip: nat, cs: seq<Clause>)
    requires ip <= |code| && Encodable(cs) && code[ip..] == Chain(cs) && cs != []
    ensures var c := cs[0];
            && ip + 4 + |c.body| <= |code|
            && code[ip] == (if c.exact then JAF else JAFX)
            && code[ip + 1] == (if c.exact then c.formals else c.formals - 1)
            && Wide(code[ip + 3], code[ip + 2]) == |c.body|
            && code[ip + 4..] == c.body + Chain(cs[1..])
            && code[ip + 4 + |c.body|..] == Chain(cs[1..])
  {
    var c, rest := cs[0], Chain(cs[1..]);
    HeaderReads(c);
    Three(Header(c), c.body, rest);
    var s := code[ip..];
    assert s == Header(c) + c.body + rest;
    assert code[ip] == s[0] && code[ip + 1] == s[1] && code[ip + 2] == s[2] && code[ip + 3] == s[3];
    assert code[ip + 4..] == s[4..] && code[ip + 4 + |c.body|..] == s[4 + |c.body|..];
  }

  lemma HereEnds(code: seq<Byte>, ip: nat, cs: seq<Clause>)
    requires ip <= |code| && Encodable(cs) && code[ip..] == Chain(cs)
    ensures ip < |code|
    ensures code[ip] == ARITY_ERROR <==> cs == []
  {
    if cs == [] {
      assert code[ip..][0] == ARITY_ERROR;
    } else {
      Here(code, ip, cs);
    }
  }

  /** What a clause makes of the registers when it accepts. */
  function Taken(c: Clause, regs: seq<Val>, acc: nat): seq<Val>
    requires Accepts(c, acc) && c.formals > 0 && acc + 3 <= |regs| && c.formals + 2 < |regs|
  {
    if c.exact then regs else Packed(regs, c.formals - 1, acc)
  }

  /** The arity instruction at ip. */
  method Check(code: seq<Byte>, ip: nat, R: array<Val>, acc: nat, ghost c: Clause) returns (ok: bool)
    requires ip + 1 < |code| && acc + 3 <= R.Length && NR + CR <= R.Length && 0 < c.formals <= 256
    requires code[ip] == (if c.exact then JAF else JAFX)
    requires code[ip + 1] == if c.exact then c.formals else c.formals - 1
    modifies R
    ensures ok == Accepts(c, acc)
    ensures R[..] == if Accepts(c, acc) then Taken(c, old(R[..]), acc) else old(R[..])
  {
    var arity := code[ip + 1];
    if code[ip] == JAF {
      ok := acc == arity;
    } else {
      ok := Pack(R, arity, acc);
    }
  }

  /** The arity instruction of the first of the clauses cs: e is where it is entered if it accepts, and next is
      where the others begin. */
  method Attempt(code: seq<Byte>, ip: nat, R: array<Val>, acc: nat, ghost cs: seq<Clause>)
    returns (ok: bool, e: Entry, next: nat)
    requires ip <= |code| && Encodable(cs) && code[ip..] == Chain(cs) && cs != []
    requires acc + 3 <= R.Length && NR + CR <= R.Length
    modifies R
    ensures ok == Accepts(cs[0], acc)
    ensures R[..] == if ok then Taken(cs[0], old(R[..]), acc) else old(R[..])
    ensures e.Entered? && e.ip <= |code| && code[e.ip..] == cs[0].body + Chain(cs[1..])
    ensures e.acc == if cs[0].exact then cs[0].formals else cs[0].formals - 1
    ensures next <= |code| && code[next..] == Chain(cs[1..])
  {
    hide Taken, Accepts, Chain;
    Here(code, ip, cs);
    var skip := Wide(code[ip + 3], code[ip + 2]);
    ok := Check(code, ip, R, acc, cs[0]);
    e, next := Entered(ip + 4, code[ip + 1]), ip + 4 + skip;
  }

  /** Runs the arity instructions of a chain of clauses: the first that accepts is entered, with the
      registers as the call left them but for the packing; with none there is an arity error. */
  method Enter(code: seq<Byte>, R: array<Val>, acc: nat, ghost cs: seq<Clause>) returns (e: Entry)
    requires Encodable(cs) && code == Chain(cs)
    requires acc + 3 <= R.Length && NR + CR <= R.Length
    modifies R
    ensures var i := First(cs, acc);
            if i == |cs| then e == ArityError && R[..] == old(R[..])
            else
              && e.Entered? && e.ip <= |code| && code[e.ip..] == cs[i].body + Chain(cs[i + 1..])
              && e.acc == (if cs[i].exact then cs[i].formals else cs[i].formals - 1)
              && cs[i] in cs && R[..] == Taken(cs[i], old(R[..]), acc)
  {
    hide Chain, Taken, Accepts;
    var ip := 0;
    ghost var rest, k := cs, 0;
    assert code[0..] == code;
    HereEnds(code, ip, rest);
    while code[ip] != ARITY_ERROR
      invariant 0 <= ip < |code| && k <= |cs| && rest == cs[k..]
      invariant Encodable(rest) && code[ip..] == Chain(rest)
      invariant code[ip] == ARITY_ERROR <==> rest == []
      invariant First(cs, acc) == k + First(rest, acc)
      invariant R[..] == old(R[..])
      decreases |rest|
    {
      assert rest[0] == cs[k] && rest[1..] == cs[k + 1..];
      var ok;
      ok, e, ip := Attempt(code, ip, R, acc, rest);
      if ok {
        return e;
      }
      rest, k := rest[1..], k + 1;
      HereEnds(code, ip, rest);
    }
    e := ArityError;
  }

  // ---- apply ----

  /** What becomes of an apply: a call, the end of the program because the registers do not suffice,
      or, when not even function and list are there, the register loop running away. */
  datatype Applied = Call(fn: Val, acc: nat) | TooLarge | RunsAway

  /** Function, arguments moved down by one, and the items of the list after them. */
  function Spread(regs: seq<Val>, base: nat, given: nat, items: seq<Val>): seq<Val>
    requires base + given + 1 < |regs| && base + given + |items| <= |regs|
  {
    regs[..base] + regs[base + 1..base + 1 + given] + items + regs[base + given + |items|..]
  }

  lemma SpreadMore(regs: seq<Val>, base: nat, given: nat, items: seq<Val>, item: Val)
    requires base + given + 1 < |regs| && base + given + |items| < |regs|
    ensures Spread(regs, base, given, items)[base + given + |items| := item]
         == Spread(regs, base, given, items + [item])
  {
  }

  lemma SpreadDown(regs: seq<Val>, base: nat, given: nat)
    requires base + given + 2 < |regs|
    ensures Spread(regs, base, given, [])[base + given := regs[base + given + 1]] == Spread(regs, base, given + 1, [])
  {
  }

  lemma {:induction false} ItemsStep(v: Val, done: seq<Val>, rest: Val)
    requires rest.Pair? && Items(v) == done + Items(rest)
    ensures Items(v) == (done + [rest.car]) + Items(rest.cdr)
  {
    assert done + ([rest.car] + Items(rest.cdr)) == (done + [rest.car]) + Items(rest.cdr);
  }

  lemma SpreadAbove(regs: seq<Val>, base: nat, given: nat, x: nat)
    requires base + given + 1 < |regs| && base + given <= x < |regs|
    ensures Spread(regs, base, given, [])[x] == regs[x]
  {
  }

  lemma SpreadNothing(regs: seq<Val>, base: nat)
    requires base + 1 < |regs|
    ensures Spread(regs, base, 0, []) == regs
  {
  }

  /** Moves the given arguments down by one. */
  method MoveDown(R: array<Val>, base: nat, given: nat)
    requires base + given + 1 < R.Length
    modifies R
    ensures R[..] == Spread(old(R[..]), base, given, [])
  {
    hide Spread;
    ghost var was := R[..];
    var reg := base;
    SpreadNothing(was, base);
    while reg < base + given
      invariant base <= reg <= base + given
      invariant R[..] == Spread(was, base, reg - base, [])
    {
      SpreadDown(was, base, reg - base);
      SpreadAbove(was, base, reg - base, reg + 1);
      assert R[..][reg + 1] == was[reg + 1];
      R[reg] := R[reg + 1];
      reg := reg + 1;
    }
  }

  /** Puts the items of a list in the registers from reg on. */
  method Unwind(R: array<Val>, list: Val, start: nat, ghost was: seq<Val>, ghost base: nat) returns (reg: nat, ok: bool)
    requires R.Length == NR + CR == |was| && base <= start && start + 1 < R.Length
    requires R[..] == Spread(was, base, start - base, [])
    modifies R
    ensures ok == (Items(list) == [] || start + |Items(list)| <= NR + 1)
    ensures ok ==> reg == start + |Items(list)| && reg <= R.Length
    ensures ok ==> R[..] == Spread(was, base, start - base, Items(list))
  {
    var lst := list;
    ghost var done := [];
    reg := start;
    while lst.Pair?
      invariant reg == start + |done| && (done == [] || reg <= NR + 1)
      invariant Items(list) == done + Items(lst)
      invariant R[..] == Spread(was, base, start - base, done)
      decreases lst
    {
      ItemsStep(list, done, lst);
      if reg > NR {
        return reg, false;
      }
      SpreadMore(was, base, start - base, done, lst.car);
      done := done + [lst.car];
      R[reg] := lst.car;
      reg := reg + 1;
      lst := lst.cdr;
    }
    ok := true;
  }

  /** APPLY, with cc the form that also passes a continuation.  The function is in register base, the
      explicit arguments and the list above it. */
  method Apply(R: array<Val>, cc: bool, acc: nat) returns (a: Applied)
    requires R.Length == NR + CR && acc + 3 <= R.Length
    modifies R
    ensures var base, need := if cc then 3 else 4, if cc then 2 else 3;
            if acc < need then a == RunsAway && R[..] == old(R[..])
            else
              var given := acc - need;
              var items := Items(old(R[..])[base + given + 1]);
              if items != [] && base + given + |items| > NR + 1 then a == TooLarge
              else
                && a == Call(old(R[..])[base], (if cc then 0 else 1) + given + |items|)
                && base + given + |items| <= R.Length
                && R[..] == Spread(old(R[..]), base, given, items)
  {
    hide Spread, Items;
    var base, need := if cc then 3 else 4, if cc then 2 else 3;
    if acc < need {
      return RunsAway;
    }
    ghost var was := R[..];
    var fn, given := R[base], acc - need;
    MoveDown(R, base, given);
    SpreadAbove(was, base, given, base + given + 1);
    var list := R[base + given + 1];
    assert list == R[..][base + given + 1];
    var reg, ok := Unwind(R, list, base + given, was, base);
    if !ok {
      return TooLarge;
    }
    a := Call(fn, (if cc then 0 else 1) + (reg - base));
  }

  /** The arguments that a call with acc arguments passes: those from register 3 on. */
  function Args(regs: seq<Val>, acc: nat): seq<Val>
    requires acc + 3 <= |regs|
  {
    regs[3..acc + 3]
  }

  /** (apply f x ... l) passes, as the form has it, what is below the function from register 3 on, that is the
      continuation or nothing; then the explicit arguments and the items of l, in this order, and nothing else. */
  lemma SpreadPasses(regs: seq<Val>, base: nat, given: nat, items: seq<Val>)
    requires 3 <= base && base + given + 1 < |regs| && base + given + |items| <= |regs|
    ensures Args(Spread(regs, base, given, items), base - 3 + given + |items|)
         == regs[3..base] + regs[base + 1..base + 1 + given] + items
  {
    var front, args, back := regs[..base], regs[base + 1..base + 1 + given], regs[base + given + |items|..];
    assert (front + args + items + back)[..base + given + |items|] == front + args + items;
    assert front[3..] == regs[3..base];
  }

  /** A variadic clause receives its fixed arguments as they were passed, and a list of the others. */
  lemma PackedReceives(regs: seq<Val>, arity: nat, acc: nat)
    requires arity <= acc && acc + 3 <= |regs| && arity + 3 < |regs|
    ensures Args(Packed(regs, arity, acc), arity) == Args(regs, acc)[..arity]
    ensures Packed(regs, arity, acc)[arity + 3] == ListOf(Args(regs, acc)[arity..])
  {
    assert regs[arity + 3..acc + 3] == Args(regs, acc)[arity..];
  }

  /** Packing the items of a proper list gives that list. */
  lemma {:induction false} ProperPacks(v: Val)
    requires Proper(v)
    ensures ListOf(Items(v)) == v
  {
    if v.Pair? { ProperPacks(v.cdr); }
  }

  predicate Proper(v: Val) {
    v == Null || (v.Pair? && Proper(v.cdr))
  }

  /** What is passed by (apply f x ... l) in the form with the function in register base. */
  function Passed(regs: seq<Val>, base: nat, given: nat): seq<Val>
    requires 3 <= base && base + given + 1 < |regs|
  {
    regs[3..base] + regs[base + 1..base + 1 + given] + Items(regs[base + given + 1])
  }

  /** apply followed by packing: in either form, and whatever the number of explicit arguments and of fixed
      formals, the fixed formals receive the first of what is passed, and the rest list holds the others. */
  lemma ApplyThenPack(regs: seq<Val>, base: nat, given: nat, arity: nat)
    requires 3 <= base && base + given + 1 < |regs| && base + given + |Items(regs[base + given + 1])| <= |regs|
    requires arity + 3 < |regs| && arity <= |Passed(regs, base, given)|
    ensures var all := Passed(regs, base, given);
            var q := Packed(Spread(regs, base, given, Items(regs[base + given + 1])), arity, |all|);
            Args(q, arity) == all[..arity] && q[arity + 3] == ListOf(all[arity..])
  {
    var items := Items(regs[base + given + 1]);
    SpreadPasses(regs, base, given, items);
    PackedReceives(Spread(regs, base, given, items), arity, base - 3 + given + |items|);
  }

  /** With as many explicit arguments as fixed formals, the rest list is the list that was applied to. */
  lemma SameListBack(regs: seq<Val>, base: nat, given: nat)
    requires 3 <= base && base + given + 1 < |regs| && base + given + |Items(regs[base + given + 1])| <= |regs|
    requires Proper(regs[base + given + 1])
    ensures var items := Items(regs[base + given + 1]);
            var fixed := base - 3 + given;
            var q := Packed(Spread(regs, base, given, items), fixed, fixed + |items|);
            && Args(q, fixed) == regs[3..base] + regs[base + 1..base + 1 + given]
            && q[fixed + 3] == regs[base + given + 1]
  {
    var all, fixed := Passed(regs, base, given), base - 3 + given;
    ApplyThenPack(regs, base, given, fixed);
    ProperPacks(regs[base + given + 1]);
    assert all[..fixed] == regs[3..base] + regs[base + 1..base + 1 + given];
    assert all[fixed..] == Items(regs[base + given + 1]);
  }
}
