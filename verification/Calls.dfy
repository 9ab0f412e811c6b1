/** The parallel argument moves of a tail call, put in order. */
module Calls {
  import opened Rtl
  import opened Lists
  import opened Wrappers

  /** From, to. */
  type Mv = (nat, nat)

  const TRY_N_PERMS := 1000

  function Zip(a: seq<nat>, b: seq<nat>): (z: seq<Mv>)
    ensures |z| == if |a| < |b| then |a| else |b|
    ensures forall i :: 0 <= i < |z| ==> z[i] == (a[i], b[i])
  {
    if a == [] || b == [] then [] else [(a[0], b[0])] + Zip(a[1..], b[1..])
  }

  /** rtl-make-moves: moves of a register to itself are left out. */
  function MakeMoves(ms: seq<Mv>, tail: Code): Code {
    if ms == [] then tail
    else if ms[0].0 == ms[0].1 then MakeMoves(ms[1..], tail)
    else Move(ms[0].0, ms[0].1, MakeMoves(ms[1..], tail))
  }

  function Sources(ms: seq<Mv>): set<nat> {
    set m | m in ms :: m.0
  }

  /** rtl-moves-ok?: nothing that a later move reads is overwritten. */
  predicate MovesOk(ms: seq<Mv>) {
    ms == [] || (ms[0].1 !in Sources(ms[1..]) && MovesOk(ms[1..]))
  }

  function AddTargets(args: seq<nat>): seq<Mv> {
    Zip(args, Range(A0, |args| + A0))
  }

  /** rtl-safe-registers: n registers above the arguments that the call does not use. */
  function SafeRegisters(hp: nat, n: nat, call: seq<nat>): (safe: seq<nat>)
    ensures |safe| == n && forall i :: 0 <= i < n ==> safe[i] >= hp && safe[i] !in call
    ensures forall i, j :: 0 <= i < j < n ==> safe[i] != safe[j]
    decreases n, Above(call, hp)
  {
    if n == 0 then []
    else if hp in call then
      AboveDrops(call, hp);
      SafeRegisters(hp + 1, n, call)
    else [hp] + SafeRegisters(hp + 1, n - 1, call)
  }

  ghost function Above(call: seq<nat>, hp: nat): nat {
    |set x | x in call && x >= hp|
  }

  lemma AboveDrops(call: seq<nat>, hp: nat)
    requires hp in call
    ensures Above(call, hp + 1) < Above(call, hp)
  {
    var s := set x | x in call && x >= hp;
    assert (set x | x in call && x >= hp + 1) == s - {hp};
  }

  function IndexOf(thing: nat, lst: seq<nat>): (i: nat)
    requires thing in lst
    ensures i < |lst| && lst[i] == thing
  {
    if lst[0] == thing then 0 else 1 + IndexOf(thing, lst[1..])
  }

  /** apply-saves: the operands, read from where they have been saved. */
  function ApplySaves(saves: seq<nat>, free: seq<nat>, call: seq<nat>): (r: seq<nat>)
    requires |saves| <= |free|
    ensures |r| == |call|
    ensures forall i :: 0 <= i < |call| ==> r[i] == if call[i] in saves then free[IndexOf(call[i], saves)] else call[i]
  {
    seq(|call|, i requires 0 <= i < |call| => if call[i] in saves then free[IndexOf(call[i], saves)] else call[i])
  }

  function Proper(ms: seq<Mv>): seq<Mv> {
    if ms == [] then [] else (if ms[0].0 == ms[0].1 then [] else [ms[0]]) + Proper(ms[1..])
  }

  function Insert(ms: seq<Mv>, m: Mv): seq<Mv> {
    if ms == [] then [m] else if m.0 < ms[0].0 then [m] + ms else [ms[0]] + Insert(ms[1..], m)
  }

  /** A stable sort by the register moved from. */
  function Sorted(ms: seq<Mv>): seq<Mv> {
    if ms == [] then [] else Insert(Sorted(ms[..|ms|-1]), ms[|ms|-1])
  }

  /** lperm-take and its loop: all permutations, the first of them the list itself. */
  function PermTake(l: seq<Mv>, out: seq<Mv>): seq<seq<Mv>>
    decreases |l|, |l| + 1
  {
    if l == [] then [out] else PermLoop(l, [], out)
  }

  function PermLoop(a: seq<Mv>, b: seq<Mv>, out: seq<Mv>): seq<seq<Mv>>
    decreases |a| + |b|, |a|
  {
    if a == [] then []
    else PermTake(b + a[1..], [a[0]] + out) + PermLoop(a[1..], [a[0]] + b, out)
  }

  function Permutations(l: seq<Mv>): seq<seq<Mv>> {
    if l == [] then [[]] else PermTake(Reversed(l), [])
  }

  /** lpick: the sublists of l of length n, each backwards, on top of out. */
  function Pick(l: seq<nat>, out: seq<nat>, n: nat): seq<seq<nat>>
    decreases |l|
  {
    if n == 0 then [out]
    else if l == [] then []
    else Pick(l[1..], [l[0]] + out, n - 1) + Pick(l[1..], out, n)
  }

  function PicksFrom(l: seq<nat>, n: nat): seq<seq<nat>>
    requires n <= |l| + 1
    decreases |l| + 1 - n
  {
    if n == |l| + 1 then [] else Pick(l, [], n) + PicksFrom(l, n + 1)
  }

  /** Sublists of growing length. */
  function Subsets(l: seq<nat>): seq<seq<nat>> {
    if l == [] then [[]] else [[]] + PicksFrom(l, 1)
  }

  /** rtl-check-moves: gives up after so many. */
  function CheckMoves(perms: seq<seq<Mv>>, nth: nat): Option<seq<Mv>> {
    if perms == [] then None
    else if MovesOk(perms[0]) then Some(perms[0])
    else if nth == TRY_N_PERMS then None
    else CheckMoves(perms[1..], nth + 1)
  }

  function Wanted(saves: seq<nat>, free: seq<nat>, call: seq<nat>): seq<Mv>
    requires |saves| <= |free|
  {
    Proper(AddTargets(ApplySaves(saves, free, call)))
  }

  function TrySaves(saves: seq<nat>, free: seq<nat>, call: seq<nat>, rest: Code): Option<Code>
    requires |saves| <= |free|
  {
    var ok := CheckMoves(Permutations(Sorted(Wanted(saves, free, call))), 0);
    if ok.Some? then Some(MakeMoves(Zip(saves, free) + ok.value, rest)) else None
  }

  /** The first of these sets of saves that works. */
  function FirstSaves(subsets: seq<seq<nat>>, free: seq<nat>, call: seq<nat>, rest: Code): Option<Code>
    requires forall s :: s in subsets ==> |s| <= |free|
  {
    if subsets == [] then None
    else
      var code := TrySaves(subsets[0], free, call, rest);
      if code.Some? then code else FirstSaves(subsets[1..], free, call, rest)
  }

  /** rtl-make-jump: None stands for the error "failed to compile call". */
  function MakeJump(call: seq<nat>, free: seq<nat>, rest: Code): Option<Code>
    requires |call| <= |free|
  {
    SubsetSizes(call);
    FirstSaves(Subsets(call), free, call, rest)
  }

  /** rtl-jump: calls what is in register rator with what is in the registers rands. */
  function JumpTo(rator: nat, rands: seq<nat>, free: seq<nat>): Option<Code>
    requires |rands| <= |free| && (|rands| < |free| || rator > 2 + |rands|)
    requires forall i :: 0 <= i < |free| ==> free[i] > 2 + |rands|
    decreases if rator <= 2 + |rands| then 1 else 0
  {
    if rator == A0 && |rands| == 1 then Some(Ret(rands[0]))
    else if rator in rands then MakeJump(rands, free, Goto(A0 + IndexOf(rator, rands), |rands|))
    else if rator > 2 + |rands| then MakeJump(rands, free, Goto(rator, |rands|))
    else
      var more := JumpTo(free[0], rands, free[1..]);
      if more.Some? then Some(Move(rator, free[0], more.value)) else None
  }

  /** The end of rtl-call, once operator and operands are in registers. */
  function CallAll(all: seq<nat>): Option<Code>
    requires |all| > 0
  {
    JumpTo(all[0], all[1..], SafeRegisters(|all| + A0 + 1, |all|, all))
  }

  lemma {:induction false} PickIs(l: seq<nat>, out: seq<nat>, n: nat, s: seq<nat>)
    requires s in Pick(l, out, n)
    ensures |s| == |out| + n && |s| <= |out| + |l|
    ensures forall x :: x in s ==> x in l || x in out
  {
    if n > 0 {
      if s in Pick(l[1..], [l[0]] + out, n - 1) {
        PickIs(l[1..], [l[0]] + out, n - 1, s);
      } else {
        PickIs(l[1..], out, n, s);
      }
    }
  }

  lemma {:induction false} PicksFromIs(l: seq<nat>, n: nat, s: seq<nat>)
    requires n <= |l| + 1 && s in PicksFrom(l, n)
    ensures |s| <= |l| && forall x :: x in s ==> x in l
    decreases |l| + 1 - n
  {
    if s in Pick(l, [], n) {
      PickIs(l, [], n, s);
    } else {
      PicksFromIs(l, n + 1, s);
    }
  }

  lemma SubsetIs(l: seq<nat>, s: seq<nat>)
    requires s in Subsets(l)
    ensures |s| <= |l| && forall x :: x in s ==> x in l
  {
    if s != [] { PicksFromIs(l, 1, s); }
  }

  lemma SubsetSizes(l: seq<nat>)
    ensures forall s :: s in Subsets(l) ==> |s| <= |l|
  {
    forall s | s in Subsets(l) ensures |s| <= |l| {
      SubsetIs(l, s);
    }
  }

  // ---- Moves one after the other, and all at once ----

  function Dests(ms: seq<Mv>): set<nat> {
    set m | m in ms :: m.1
  }

  predicate Distinct(ms: seq<Mv>) {
    ms == [] || (ms[0].1 !in Dests(ms[1..]) && Distinct(ms[1..]))
  }

  function DoMoves<V>(r: Regs<V>, ms: seq<Mv>): Regs<V> {
    if ms == [] then r else DoMoves(if ms[0].0 == ms[0].1 then r else Put(r, ms[0].1, r(ms[0].0)), ms[1..])
  }

  /** After the moves every target holds what its source held before any of them. */
  ghost predicate AllAtOnce<V>(r: Regs<V>, ms: seq<Mv>) {
    forall m :: m in ms ==> DoMoves(r, ms)(m.1) == r(m.0)
  }

  lemma {:induction false} RunMoves<V, H>(ops: Ops<V, H>, ms: seq<Mv>, tail: Code, r: Regs<V>, h: H)
    ensures Run(ops, MakeMoves(ms, tail), r, h) == Run(ops, tail, DoMoves(r, ms), h)
  {
    if ms != [] {
      RunMoves(ops, ms[1..], tail, if ms[0].0 == ms[0].1 then r else Put(r, ms[0].1, r(ms[0].0)), h);
    }
  }

  lemma Peel(ms: seq<Mv>)
    requires ms != []
    ensures Sources(ms) == {ms[0].0} + Sources(ms[1..]) && Dests(ms) == {ms[0].1} + Dests(ms[1..])
    ensures forall m :: m in ms <==> m == ms[0] || m in ms[1..]
  {
    assert ms == [ms[0]] + ms[1..];
  }

  lemma {:induction false} Untouched<V>(r: Regs<V>, ms: seq<Mv>, x: nat)
    requires x !in Dests(ms)
    ensures DoMoves(r, ms)(x) == r(x)
  {
    if ms != [] {
      Peel(ms);
      Untouched(if ms[0].0 == ms[0].1 then r else Put(r, ms[0].1, r(ms[0].0)), ms[1..], x);
    }
  }

  /** Moves in an order that is ok amount to all of them at once. */
  lemma {:induction false} OkMoves<V>(r: Regs<V>, ms: seq<Mv>)
    requires MovesOk(ms) && Distinct(ms)
    ensures AllAtOnce(r, ms)
  {
    if ms != [] {
      Peel(ms);
      var q := if ms[0].0 == ms[0].1 then r else Put(r, ms[0].1, r(ms[0].0));
      OkMoves(q, ms[1..]);
      Untouched(q, ms[1..], ms[0].1);
      forall m | m in ms ensures DoMoves(r, ms)(m.1) == r(m.0) {
        if m in ms[1..] { assert m.0 in Sources(ms[1..]); }
      }
    }
  }

  /** Some move reads a register that is in w or has been moved to before. */
  predicate ReadsStale(ms: seq<Mv>, w: set<nat>) {
    ms != [] && (ms[0].0 in w || ReadsStale(ms[1..], w + {ms[0].1}))
  }

  lemma {:induction false} StaleIfNotOk(ms: seq<Mv>, w: set<nat>)
    requires !MovesOk(ms) || w * Sources(ms) != {}
    ensures ReadsStale(ms, w)
  {
    Peel(ms);
    if ms[0].0 !in w {
      var w', rest := w + {ms[0].1}, Sources(ms[1..]);
      forall x | x in w' && x in rest ensures w' * rest != {} {
        assert x in w' * rest;
      }
      assert w * Sources(ms) <= w' * rest;
      StaleIfNotOk(ms[1..], w');
    }
  }

  /** Where the registers that have been moved to no longer hold what r held, a stale read shows. */
  lemma {:induction false} StaleShows(r: Regs<nat>, q: Regs<nat>, ms: seq<Mv>, w: set<nat>) returns (m: Mv)
    requires ReadsStale(ms, w) && Distinct(ms)
    requires forall m :: m in ms ==> m.0 != m.1
    requires forall x: nat :: q(x) == r(x) <==> x !in w
    requires forall x: nat, y: nat :: r(x) == r(y) ==> x == y
    ensures m in ms && DoMoves(q, ms)(m.1) != r(m.0)
  {
    Peel(ms);
    var (s, d) := ms[0];
    var q' := Put(q, d, q(s));
    if s in w {
      Untouched(q', ms[1..], d);
      m := ms[0];
    } else {
      m := StaleShows(r, q', ms[1..], w + {d});
    }
  }

  /** rtl-moves-ok? is exact: it accepts an order exactly when, whatever the registers hold, doing
      the moves one after the other amounts to doing them all at once. */
  lemma MovesOkExact(ms: seq<Mv>)
    requires Distinct(ms) && forall m :: m in ms ==> m.0 != m.1
    ensures MovesOk(ms) <==> forall r: Regs<nat> :: AllAtOnce(r, ms)
  {
    if MovesOk(ms) {
      forall r: Regs<nat> ensures AllAtOnce(r, ms) {
        OkMoves(r, ms);
      }
    } else {
      var r: Regs<nat> := (x: nat) => x;
      StaleIfNotOk(ms, {});
      var m := StaleShows(r, r, ms, {});
      assert !AllAtOnce(r, ms);
    }
  }

  // ---- Permutations and sublists ----

  lemma {:induction false} PermTakeAre(l: seq<Mv>, out: seq<Mv>)
    ensures forall p :: p in PermTake(l, out) ==> multiset(p) == multiset(l) + multiset(out)
    ensures PermTake(l, out) != []
    decreases |l|, |l| + 1
  {
    if l != [] { PermLoopAre(l, [], out); }
  }

  lemma {:induction false} PermLoopAre(a: seq<Mv>, b: seq<Mv>, out: seq<Mv>)
    ensures forall p :: p in PermLoop(a, b, out) ==> multiset(p) == multiset(a) + multiset(b) + multiset(out)
    ensures a != [] ==> PermLoop(a, b, out) != []
    decreases |a| + |b|, |a|
  {
    if a != [] {
      assert a == [a[0]] + a[1..];
      PermTakeAre(b + a[1..], [a[0]] + out);
      PermLoopAre(a[1..], [a[0]] + b, out);
    }
  }

  lemma {:induction false} PermTakeHas(l: seq<Mv>, out: seq<Mv>, p: seq<Mv>)
    requires multiset(p) == multiset(l)
    ensures p + out in PermTake(l, out)
    decreases |l|, |l| + 1
  {
    if l == [] {
      assert |multiset(p)| == 0 && p == [];
      assert p + out == out;
    } else {
      assert |multiset(p)| == |l| && p[|p|-1] in multiset(l);
      PermLoopHas(l, [], out, p);
    }
  }

  lemma {:induction false} PermLoopHas(a: seq<Mv>, b: seq<Mv>, out: seq<Mv>, p: seq<Mv>)
    requires p != [] && multiset(p) == multiset(a) + multiset(b) && p[|p|-1] in a
    ensures p + out in PermLoop(a, b, out)
    decreases |a| + |b|, |a|
  {
    hide PermTake;
    var n := |p| - 1;
    if a[0] == p[n] {
      WithoutLast(p, a, b);
      PermTakeHas(b + a[1..], [a[0]] + out, p[..n]);
      assert p[..n] + ([a[0]] + out) == p + out;
    } else {
      NextLast(a, b);
      PermLoopHas(a[1..], [a[0]] + b, out, p);
    }
  }

  lemma WithoutLast(p: seq<Mv>, a: seq<Mv>, b: seq<Mv>)
    requires p != [] && a != [] && p[|p|-1] == a[0] && multiset(p) == multiset(a) + multiset(b)
    ensures multiset(p[..|p|-1]) == multiset(b + a[1..])
  {
    var n := |p| - 1;
    assert p == p[..n] + [p[n]];
    assert a == [a[0]] + a[1..];
    assert multiset(p[..n]) + multiset{p[n]} == multiset(b + a[1..]) + multiset{p[n]};
    assert multiset(p[..n]) == (multiset(b + a[1..]) + multiset{p[n]}) - multiset{p[n]};
  }

  lemma NextLast(a: seq<Mv>, b: seq<Mv>)
    requires a != []
    ensures multiset(a[1..]) + multiset([a[0]] + b) == multiset(a) + multiset(b)
    ensures forall m :: m in a <==> m == a[0] || m in a[1..]
  {
    assert a == [a[0]] + a[1..];
  }

  lemma {:induction false} PermTakeFirst(l: seq<Mv>, out: seq<Mv>)
    ensures PermTake(l, out) != [] && PermTake(l, out)[0] == Reversed(l) + out
    decreases |l|
  {
    if l == [] {
      assert Reversed(l) + out == out;
    } else {
      PermTakeFirst(l[1..], [l[0]] + out);
      assert [] + l[1..] == l[1..];
      assert Reversed(l) + out == Reversed(l[1..]) + ([l[0]] + out);
    }
  }

  /** The candidates are the rearrangements of the moves, all of them, and the first is the moves as they are. */
  lemma PermutationsAre(l: seq<Mv>)
    ensures forall p :: p in Permutations(l) <==> multiset(p) == multiset(l)
    ensures Permutations(l) != [] && Permutations(l)[0] == l
  {
    var r := Reversed(l);
    if l == [] {
      forall p ensures p in Permutations(l) <==> multiset(p) == multiset(l) {
        assert |multiset(p)| == |p| && |multiset(l)| == 0;
      }
    } else {
      ReversedSame(l);
      PermTakeAre(r, []);
      PermTakeFirst(r, []);
      assert Reversed(r) + [] == l;
      forall p | multiset(p) == multiset(l) ensures p in Permutations(l) {
        PermTakeHas(r, [], p);
        assert p + [] == p;
      }
    }
  }

  function Factorial(n: nat): (f: nat)
    ensures f >= 1
  {
    if n == 0 then 1 else n * Factorial(n - 1)
  }

  lemma {:induction false} PermTakeCount(l: seq<Mv>, out: seq<Mv>)
    ensures |PermTake(l, out)| == Factorial(|l|)
    decreases |l|, |l| + 1
  {
    if l != [] { PermLoopCount(l, [], out); }
  }

  lemma {:induction false} PermLoopCount(a: seq<Mv>, b: seq<Mv>, out: seq<Mv>)
    ensures a != [] ==> |PermLoop(a, b, out)| == |a| * Factorial(|a| + |b| - 1)
    decreases |a| + |b|, |a|
  {
    if a != [] {
      PermTakeCount(b + a[1..], [a[0]] + out);
      PermLoopCount(a[1..], [a[0]] + b, out);
      if |a| > 1 {
        assert |a[1..]| + |[a[0]] + b| - 1 == |a| + |b| - 1;
        assert (|a| - 1) * Factorial(|a| + |b| - 1) + Factorial(|a| + |b| - 1) == |a| * Factorial(|a| + |b| - 1);
      }
    }
  }

  lemma PermutationCount(l: seq<Mv>)
    ensures |Permutations(l)| == Factorial(|l|)
  {
    if l != [] { PermTakeCount(Reversed(l), []); }
  }

  lemma {:induction false} InsertIs(ms: seq<Mv>, m: Mv)
    ensures multiset(Insert(ms, m)) == multiset(ms) + multiset{m}
  {
    if ms != [] {
      assert ms == [ms[0]] + ms[1..];
      InsertIs(ms[1..], m);
    }
  }

  lemma {:induction false} SortedIs(ms: seq<Mv>)
    ensures multiset(Sorted(ms)) == multiset(ms)
  {
    if ms != [] {
      var n := |ms| - 1;
      assert ms == ms[..n] + [ms[n]];
      SortedIs(ms[..n]);
      InsertIs(Sorted(ms[..n]), ms[n]);
    }
  }

  /** t is l with some elements left out. */
  predicate Within(t: seq<nat>, l: seq<nat>) {
    t == [] || (l != [] && ((t[0] == l[0] && Within(t[1..], l[1..])) || Within(t, l[1..])))
  }

  lemma {:induction false} WithinShorter(t: seq<nat>, l: seq<nat>)
    requires Within(t, l)
    ensures |t| <= |l|
  {
    if t != [] {
      if t[0] == l[0] && Within(t[1..], l[1..]) {
        WithinShorter(t[1..], l[1..]);
      } else {
        WithinShorter(t, l[1..]);
      }
    }
  }

  lemma {:induction false} PickExactly(l: seq<nat>, out: seq<nat>, n: nat, s: seq<nat>)
    ensures s in Pick(l, out, n) <==> |s| == n + |out| && s[n..] == out && Within(Reversed(s[..n]), l)
  {
    hide Reversed;
    if n > 0 && l != [] {
      PickExactly(l[1..], [l[0]] + out, n - 1, s);
      PickExactly(l[1..], out, n, s);
      if |s| == n + |out| {
        ReversedLast(s, n);
        var t, u := Reversed(s[..n]), Reversed(s[..n-1]);
        assert t[0] == s[n-1] && t[1..] == u;
        assert Within(t, l) <==> (s[n-1] == l[0] && Within(u, l[1..])) || Within(t, l[1..]);
        assert s[n-1..] == [l[0]] + out <==> s[n-1] == l[0] && s[n..] == out;
      }
    }
  }

  lemma ReversedLast(s: seq<nat>, n: nat)
    requires 0 < n <= |s|
    ensures Reversed(s[..n]) == [s[n-1]] + Reversed(s[..n-1])
    ensures s[n-1..] == [s[n-1]] + s[n..]
  {
    var t, u := Reversed(s[..n]), [s[n-1]] + Reversed(s[..n-1]);
    assert |t| == |u| && forall i :: 0 <= i < |t| ==> t[i] == u[i];
  }

  lemma {:induction false} PicksFromExactly(l: seq<nat>, n: nat, s: seq<nat>)
    requires n <= |l| + 1
    ensures s in PicksFrom(l, n) <==> n <= |s| && Within(Reversed(s), l)
    decreases |l| + 1 - n
  {
    hide Within, Pick, Reversed;
    if Within(Reversed(s), l) { WithinShorter(Reversed(s), l); }
    if n <= |l| {
      PickExactly(l, [], n, s);
      PicksFromExactly(l, n + 1, s);
      if |s| == n { assert s[..n] == s; }
    }
  }

  /** The candidates for saving are all the choices of operands, those of fewer operands before the others. */
  lemma SubsetsAre(l: seq<nat>)
    ensures forall s :: s in Subsets(l) <==> Within(Reversed(s), l)
    ensures Growing(Subsets(l))
  {
    forall s ensures s in Subsets(l) <==> Within(Reversed(s), l) {
      if l != [] { PicksFromExactly(l, 1, s); }
      assert s == [] <==> Reversed(s) == [];
    }
    if l != [] { PicksFromGrow(l, 1); }
  }

  predicate Growing(ss: seq<seq<nat>>) {
    forall i, j :: 0 <= i < j < |ss| ==> |ss[i]| <= |ss[j]|
  }

  lemma {:induction false} PicksFromGrow(l: seq<nat>, n: nat)
    requires n <= |l| + 1
    ensures Growing(PicksFrom(l, n))
    decreases |l| + 1 - n
  {
    if n <= |l| {
      PicksFromGrow(l, n + 1);
      forall s | s in Pick(l, [], n) ensures |s| == n {
        PickIs(l, [], n, s);
      }
      forall s | s in PicksFrom(l, n + 1) ensures |s| >= n {
        PicksFromExactly(l, n + 1, s);
      }
    }
  }

  lemma {:induction false} PickAll(l: seq<nat>, out: seq<nat>)
    ensures Reversed(l) + out in Pick(l, out, |l|)
  {
    if l == [] {
      assert Reversed(l) + out == out;
    } else {
      PickAll(l[1..], [l[0]] + out);
      assert Reversed(l) + out == Reversed(l[1..]) + ([l[0]] + out);
    }
  }

  lemma {:induction false} PicksReach(l: seq<nat>, n: nat, s: seq<nat>)
    requires n <= |l| && s in Pick(l, [], |l|)
    ensures s in PicksFrom(l, n)
    decreases |l| - n
  {
    if n < |l| { PicksReach(l, n + 1, s); }
  }

  /** The last of the sublists is all of the list, backwards. */
  lemma AllIsSubset(l: seq<nat>)
    ensures Reversed(l) in Subsets(l)
  {
    if l != [] {
      PickAll(l, []);
      assert Reversed(l) + [] == Reversed(l);
      PicksReach(l, 1, Reversed(l));
    }
  }

  lemma PeelMultiset(ms: seq<Mv>)
    requires ms != []
    ensures multiset(ms) == multiset{ms[0]} + multiset(ms[1..])
    ensures forall m :: m in multiset(ms[1..]) ==> m.1 in Dests(ms[1..])
  {
    assert ms == [ms[0]] + ms[1..];
    forall m | m in multiset(ms[1..]) ensures m.1 in Dests(ms[1..]) {
      assert m in ms[1..];
    }
  }

  lemma {:induction false} DistinctOneEach(ms: seq<Mv>)
    requires Distinct(ms)
    ensures OneEach(multiset(ms))
  {
    if ms != [] {
      PeelMultiset(ms);
      DistinctOneEach(ms[1..]);
      var s, rest := multiset(ms), multiset(ms[1..]);
      assert ms[0] !in rest;
      forall m | m in s ensures s[m] == 1 {
        assert m == ms[0] || m in rest;
      }
      forall m, m' | m in s && m' in s && m.1 == m'.1 ensures m == m' {
        assert m == ms[0] || m in rest;
        assert m' == ms[0] || m' in rest;
      }
    }
  }

  lemma {:induction false} OneEachDistinct(ms: seq<Mv>)
    requires OneEach(multiset(ms))
    ensures Distinct(ms)
  {
    if ms != [] {
      PeelMultiset(ms);
      var s, rest := multiset(ms), multiset(ms[1..]);
      assert OneEach(rest) by {
        forall m | m in rest ensures m in s && rest[m] == 1 {
          assert s[m] == 1;
        }
      }
      OneEachDistinct(ms[1..]);
      forall m | m in ms[1..] ensures m.1 != ms[0].1 {
        assert m in rest && m in s && ms[0] in s && s[m] == 1;
      }
    }
  }

  ghost predicate OneEach(s: multiset<Mv>) {
    && (forall m :: m in s ==> s[m] == 1)
    && forall m, m' :: m in s && m' in s && m.1 == m'.1 ==> m == m'
  }

  lemma DistinctPerm(a: seq<Mv>, b: seq<Mv>)
    requires multiset(a) == multiset(b) && Distinct(a)
    ensures Distinct(b)
  {
    DistinctOneEach(a);
    OneEachDistinct(b);
  }

  lemma SamePerm(a: seq<Mv>, b: seq<Mv>)
    requires multiset(a) == multiset(b)
    ensures forall m :: m in a <==> m in b
    ensures Sources(a) == Sources(b) && Dests(a) == Dests(b)
  {
    forall m ensures m in a <==> m in b {
      assert m in a <==> m in multiset(a);
      assert m in b <==> m in multiset(b);
    }
  }

  // ---- The moves that are wanted ----

  lemma {:induction false} ProperIs(ms: seq<Mv>)
    ensures forall m :: m in Proper(ms) <==> m in ms && m.0 != m.1
    ensures Distinct(ms) ==> Distinct(Proper(ms))
  {
    if ms != [] {
      Peel(ms);
      ProperIs(ms[1..]);
      var rest := Proper(ms[1..]);
      forall m | m in rest ensures m.1 in Dests(ms[1..]) {
      }
      if ms[0].0 != ms[0].1 {
        assert Proper(ms) == [ms[0]] + rest && Proper(ms)[1..] == rest;
      } else {
        assert Proper(ms) == rest;
      }
    }
  }

  lemma {:induction false} ApartDistinct(ms: seq<Mv>)
    requires forall i, j :: 0 <= i < j < |ms| ==> ms[i].1 != ms[j].1
    ensures Distinct(ms)
  {
    if ms != [] {
      ApartDistinct(ms[1..]);
      forall m | m in ms[1..] ensures m.1 != ms[0].1 {
        var i :| 0 <= i < |ms[1..]| && ms[1..][i] == m;
        assert ms[i + 1] == m;
      }
    }
  }

  lemma AddTargetsHas(args: seq<nat>)
    ensures forall m :: m in AddTargets(args) <==> A0 <= m.1 < A0 + |args| && m.0 == args[m.1 - A0]
  {
    var z := AddTargets(args);
    forall m: Mv ensures m in z <==> A0 <= m.1 < A0 + |args| && m.0 == args[m.1 - A0] {
      if A0 <= m.1 < A0 + |args| && m.0 == args[m.1 - A0] {
        assert z[m.1 - A0] == m;
      }
      if m in z {
        var i :| 0 <= i < |z| && z[i] == m;
      }
    }
  }

  /** The moves that bring args into place: one for each argument that is not there yet. */
  ghost predicate Brings(ms: seq<Mv>, args: seq<nat>) {
    && Distinct(ms)
    && forall m :: m in ms <==> A0 <= m.1 < A0 + |args| && m.0 == args[m.1 - A0] && m.0 != m.1
  }

  lemma WantedIs(saves: seq<nat>, free: seq<nat>, call: seq<nat>)
    requires |saves| <= |free|
    ensures Brings(Wanted(saves, free, call), ApplySaves(saves, free, call))
  {
    var args := ApplySaves(saves, free, call);
    ApartDistinct(AddTargets(args));
    AddTargetsHas(args);
    ProperIs(AddTargets(args));
  }

  /** The first order that is accepted is taken, unless it comes too late. */
  lemma {:induction false} CheckMovesOk(perms: seq<seq<Mv>>, nth: nat)
    requires nth <= TRY_N_PERMS
    ensures CheckMoves(perms, nth).Some? ==>
            CheckMoves(perms, nth).value in perms && MovesOk(CheckMoves(perms, nth).value)
    ensures forall p :: p in perms[..if |perms| <= TRY_N_PERMS + 1 - nth then |perms| else TRY_N_PERMS + 1 - nth] ==>
              MovesOk(p) ==> CheckMoves(perms, nth).Some?
  {
    if perms != [] && !MovesOk(perms[0]) && nth != TRY_N_PERMS {
      CheckMovesOk(perms[1..], nth + 1);
      forall i | 1 <= i < |perms| && i <= TRY_N_PERMS - nth && MovesOk(perms[i])
        ensures CheckMoves(perms, nth).Some?
      {
        var k := if |perms| - 1 <= TRY_N_PERMS - nth then |perms| - 1 else TRY_N_PERMS - nth;
        assert perms[1..][..k][i-1] == perms[i];
      }
    }
  }

  /** Registers to save operands in: as many as there are operands and more, all different, none of
      them an operand or an argument register. */
  predicate SafeFor(free: seq<nat>, call: seq<nat>) {
    && |call| <= |free|
    && (forall i :: 0 <= i < |free| ==> free[i] > 2 + |call| && free[i] !in call)
    && (forall i, j :: 0 <= i < j < |free| ==> free[i] != free[j])
  }

  lemma {:induction false} ZipSavesOk(saves: seq<nat>, free: seq<nat>)
    requires |saves| <= |free|
    requires forall i :: 0 <= i < |free| ==> free[i] !in saves
    requires forall i, j :: 0 <= i < j < |free| ==> free[i] != free[j]
    ensures MovesOk(Zip(saves, free)) && Distinct(Zip(saves, free))
    ensures forall m :: m in Zip(saves, free) ==> m.0 in saves && m.1 in free
    ensures forall i :: 0 <= i < |saves| ==> (saves[i], free[i]) in Zip(saves, free)
  {
    var z := Zip(saves, free);
    forall i | 0 <= i < |saves| ensures (saves[i], free[i]) in z {
      assert z[i] == (saves[i], free[i]);
    }
    if saves != [] {
      ZipSavesOk(saves[1..], free[1..]);
      assert z[1..] == Zip(saves[1..], free[1..]);
    }
  }

  // ---- The call ----

  /** What the emitted moves achieve: argument register i holds the i-th operand; registers that are
      neither arguments nor free are as they were. */
  ghost predicate Passed<V(!new)>(r: Regs<V>, q: Regs<V>, call: seq<nat>, free: seq<nat>) {
    && (forall i :: 0 <= i < |call| ==> q(A0 + i) == r(call[i]))
    && (forall x: nat :: x !in free && !(A0 <= x < A0 + |call|) ==> q(x) == r(x))
  }

  lemma SavedValues<V>(r: Regs<V>, saves: seq<nat>, free: seq<nat>, call: seq<nat>)
    requires |saves| <= |free| && SafeFor(free, call) && forall x :: x in saves ==> x in call
    ensures var q := DoMoves(r, Zip(saves, free));
            && (forall i :: 0 <= i < |call| ==> q(ApplySaves(saves, free, call)[i]) == r(call[i]))
            && (forall x: nat :: x !in free ==> q(x) == r(x))
  {
    var z := Zip(saves, free);
    ZipSavesOk(saves, free);
    OkMoves(r, z);
    forall x: nat | x !in free ensures DoMoves(r, z)(x) == r(x) {
      Untouched(r, z, x);
    }
    forall i | 0 <= i < |call| ensures DoMoves(r, z)(ApplySaves(saves, free, call)[i]) == r(call[i]) {
      if call[i] in saves {
        var j := IndexOf(call[i], saves);
        assert (saves[j], free[j]) in z;
      } else {
        assert call[i] !in free;
      }
    }
  }

  lemma OrderedMoves<V>(r: Regs<V>, call': seq<nat>, ms: seq<Mv>, wanted: seq<Mv>)
    requires MovesOk(ms) && multiset(ms) == multiset(wanted) && Brings(wanted, call')
    ensures forall i :: 0 <= i < |call'| ==> DoMoves(r, ms)(A0 + i) == r(call'[i])
    ensures forall x: nat :: !(A0 <= x < A0 + |call'|) ==> DoMoves(r, ms)(x) == r(x)
  {
    DistinctPerm(wanted, ms);
    SamePerm(wanted, ms);
    OkMoves(r, ms);
    forall i | 0 <= i < |call'| ensures DoMoves(r, ms)(A0 + i) == r(call'[i]) {
      if call'[i] != A0 + i {
        var m: Mv := (call'[i], A0 + i);
        assert m in ms;
      } else {
        assert A0 + i !in Dests(ms);
        Untouched(r, ms, A0 + i);
      }
    }
    forall x: nat | !(A0 <= x < A0 + |call'|) ensures DoMoves(r, ms)(x) == r(x) {
      Untouched(r, ms, x);
    }
  }

  lemma {:induction false} DoMovesJoin<V>(r: Regs<V>, a: seq<Mv>, b: seq<Mv>)
    ensures DoMoves(r, a + b) == DoMoves(DoMoves(r, a), b)
  {
    if a == [] {
      assert a + b == b;
    } else {
      assert (a + b)[1..] == a[1..] + b;
      DoMovesJoin(if a[0].0 == a[0].1 then r else Put(r, a[0].1, r(a[0].0)), a[1..], b);
    }
  }

  /** Whatever set of saves is used, the emitted code passes the operands and goes on. */
  lemma TrySavesSound<V(!new), H>(ops: Ops<V, H>, saves: seq<nat>, free: seq<nat>, call: seq<nat>, rest: Code,
          r: Regs<V>, h: H)
    returns (q: Regs<V>)
    requires |saves| <= |free| && SafeFor(free, call) && forall x :: x in saves ==> x in call
    requires TrySaves(saves, free, call, rest).Some?
    ensures Run(ops, TrySaves(saves, free, call, rest).value, r, h) == Run(ops, rest, q, h)
    ensures Passed(r, q, call, free)
  {
    var wanted := Wanted(saves, free, call);
    var perms := Permutations(Sorted(wanted));
    CheckMovesOk(perms, 0);
    PermutationsAre(Sorted(wanted));
    SortedIs(wanted);
    WantedIs(saves, free, call);
    var ms := CheckMoves(perms, 0).value;
    var z := Zip(saves, free);
    RunMoves(ops, z + ms, rest, r, h);
    DoMovesJoin(r, z, ms);
    SavedValues(r, saves, free, call);
    OrderedMoves(DoMoves(r, z), ApplySaves(saves, free, call), ms, wanted);
    q := DoMoves(r, z + ms);
  }

  lemma AllSavedHigh(saves: seq<nat>, free: seq<nat>, call: seq<nat>, m: Mv)
    requires |saves| <= |free| && SafeFor(free, call) && forall x :: x in call ==> x in saves
    requires A0 <= m.1 < A0 + |call| && m.0 == ApplySaves(saves, free, call)[m.1 - A0]
    ensures m.0 > 2 + |call| && m.1 <= 2 + |call|
  {
    var x := call[m.1 - A0];
    assert x in saves && m.0 == free[IndexOf(x, saves)];
  }

  /** When every operand is saved, the moves read only safe registers: any order will do. */
  lemma FullSaveWorks(saves: seq<nat>, free: seq<nat>, call: seq<nat>, rest: Code)
    requires |saves| <= |free| && SafeFor(free, call) && forall x :: x in call ==> x in saves
    ensures TrySaves(saves, free, call, rest).Some?
  {
    var wanted := Wanted(saves, free, call);
    var perms := Permutations(Sorted(wanted));
    WantedIs(saves, free, call);
    PermutationsAre(Sorted(wanted));
    SortedIs(wanted);
    var first := perms[0];
    assert first in perms;
    SamePerm(wanted, first);
    forall m: Mv | m in first ensures m.0 > 2 + |call| && m.1 <= 2 + |call| {
      AllSavedHigh(saves, free, call, m);
    }
    HighSourcesOk(first, 2 + |call|);
    CheckMovesOk(perms, 0);
  }

  lemma {:induction false} HighSourcesOk(ms: seq<Mv>, top: nat)
    requires forall m :: m in ms ==> m.0 > top && m.1 <= top
    ensures MovesOk(ms)
  {
    if ms != [] {
      Peel(ms);
      HighSourcesOk(ms[1..], top);
    }
  }

  /** Some order of the moves does them all at once. */
  ghost predicate Orderable(moves: multiset<Mv>) {
    exists ms {:trigger multiset(ms)} :: multiset(ms) == moves && MovesOk(ms)
  }

  lemma {:induction false} FactorialGrows(m: nat, n: nat)
    requires m <= n
    ensures Factorial(m) <= Factorial(n)
    decreases n
  {
    if m < n { FactorialGrows(m, n - 1); }
  }

  lemma {:induction false} ProperShorter(ms: seq<Mv>)
    ensures |Proper(ms)| <= |ms|
  {
    if ms != [] { ProperShorter(ms[1..]); }
  }

  /** Where there is an order it is found, when all the orders of so many moves are tried. */
  lemma TrySavesExact(saves: seq<nat>, free: seq<nat>, call: seq<nat>, rest: Code)
    requires |saves| <= |free| && Factorial(|call|) <= TRY_N_PERMS + 1
    ensures TrySaves(saves, free, call, rest).Some? <==> Orderable(multiset(Wanted(saves, free, call)))
  {
    hide Factorial, Permutations, Wanted, Orderable;
    var moves := Sorted(Wanted(saves, free, call));
    SortedIs(Wanted(saves, free, call));
    FewMoves(saves, free, call);
    OrderFound(moves);
  }

  lemma OrderFound(moves: seq<Mv>)
    requires Factorial(|moves|) <= TRY_N_PERMS + 1
    ensures CheckMoves(Permutations(moves), 0).Some? <==> Orderable(multiset(moves))
  {
    hide Permutations, Factorial, CheckMoves, MovesOk;
    var perms := Permutations(moves);
    PermutationCount(moves);
    PermutationsAre(moves);
    CheckMovesOk(perms, 0);
    var ok := CheckMoves(perms, 0);
    if ok.Some? { assert multiset(ok.value) == multiset(moves) && MovesOk(ok.value); }
    assert perms[..|perms|] == perms;
    if ms :| multiset(ms) == multiset(moves) && MovesOk(ms) {
      assert ms in perms;
    }
  }

  lemma FewMoves(saves: seq<nat>, free: seq<nat>, call: seq<nat>)
    requires |saves| <= |free|
    ensures Factorial(|Sorted(Wanted(saves, free, call))|) <= Factorial(|call|)
  {
    var wanted := Wanted(saves, free, call);
    SortedIs(wanted);
    assert |multiset(Sorted(wanted))| == |Sorted(wanted)| && |multiset(wanted)| == |wanted|;
    ProperShorter(AddTargets(ApplySaves(saves, free, call)));
    FactorialGrows(|wanted|, |call|);
  }

  /** The first set of saves that works; none that works comes before it. */
  lemma {:induction false} FirstSavesIs(subsets: seq<seq<nat>>, free: seq<nat>, call: seq<nat>, rest: Code,
          one: seq<nat>) returns (i: nat)
    requires forall s :: s in subsets ==> |s| <= |free|
    requires one in subsets && TrySaves(one, free, call, rest).Some?
    ensures i < |subsets| && FirstSaves(subsets, free, call, rest) == TrySaves(subsets[i], free, call, rest)
    ensures TrySaves(subsets[i], free, call, rest).Some?
    ensures forall j :: 0 <= j < i ==> TrySaves(subsets[j], free, call, rest).None?
  {
    hide TrySaves;
    if TrySaves(subsets[0], free, call, rest).Some? {
      i := 0;
    } else {
      i := FirstSavesIs(subsets[1..], free, call, rest, one);
      i := i + 1;
    }
  }

  lemma SomeSavesWork(call: seq<nat>, free: seq<nat>, rest: Code) returns (s: seq<nat>)
    requires SafeFor(free, call)
    ensures s in Subsets(call) && |s| <= |free| && forall x :: x in s ==> x in call
    ensures TrySaves(s, free, call, rest).Some? && MakeJump(call, free, rest) == TrySaves(s, free, call, rest)
    ensures forall t :: t in Subsets(call) && |t| < |s| ==> |t| <= |free| && TrySaves(t, free, call, rest).None?
  {
    hide TrySaves, Subsets, FirstSaves, Within, Reversed;
    SubsetSizes(call);
    SubsetsAre(call);
    AllIsSubset(call);
    var all := Reversed(call);
    forall x | x in call ensures x in all {
      var i :| 0 <= i < |call| && call[i] == x;
      assert all[|call| - 1 - i] == x;
    }
    FullSaveWorks(all, free, call, rest);
    var i := FirstSavesIs(Subsets(call), free, call, rest, all);
    s := Subsets(call)[i];
    SubsetIs(call, s);
  }

  /** A jump can always be compiled: the error "failed to compile call" cannot occur. */
  lemma MakeJumpSound<V(!new), H>(ops: Ops<V, H>, call: seq<nat>, free: seq<nat>, rest: Code, r: Regs<V>, h: H)
    returns (q: Regs<V>)
    requires SafeFor(free, call)
    ensures MakeJump(call, free, rest).Some?
    ensures Run(ops, MakeJump(call, free, rest).value, r, h) == Run(ops, rest, q, h)
    ensures Passed(r, q, call, free)
  {
    var s := SomeSavesWork(call, free, rest);
    q := TrySavesSound(ops, s, free, call, rest, r, h);
  }

  /** A call that is small enough for all orders to be tried saves as few operands as can be. */
  lemma FewestSaves(call: seq<nat>, free: seq<nat>, rest: Code) returns (saves: seq<nat>)
    requires SafeFor(free, call) && Factorial(|call|) <= TRY_N_PERMS + 1
    ensures |saves| <= |free| && Within(Reversed(saves), call)
    ensures MakeJump(call, free, rest).Some? && MakeJump(call, free, rest) == TrySaves(saves, free, call, rest)
    ensures forall t :: Within(Reversed(t), call) && |t| < |saves| ==> !Orderable(multiset(Wanted(t, free, call)))
  {
    hide TrySaves, MakeJump, Subsets, Growing, Within, Reversed, Factorial, Wanted, Orderable;
    SubsetsAre(call);
    SubsetSizes(call);
    saves := SomeSavesWork(call, free, rest);
    forall t | Within(Reversed(t), call) && |t| < |saves| ensures !Orderable(multiset(Wanted(t, free, call))) {
      assert t in Subsets(call);
      TrySavesExact(t, free, call, rest);
    }
  }

  /** What a call must do. */
  function Intended<V, H>(rator: nat, rands: seq<nat>, r: Regs<V>, h: H): Outcome<V, H> {
    if rator == A0 && |rands| == 1 then Returned(r(rator), r(rands[0]), h)
    else Called(r(rator), Fetch(r, rands), h)
  }

  lemma PassedArguments<V(!new)>(r: Regs<V>, q: Regs<V>, call: seq<nat>, free: seq<nat>)
    requires Passed(r, q, call, free)
    ensures Fetch(q, Range(A0, A0 + |call|)) == Fetch(r, call)
  {
    var regs := Range(A0, A0 + |call|);
    SameFetched(r, q, regs, call);
  }

  lemma SameFetched<V>(r: Regs<V>, q: Regs<V>, at: seq<nat>, call: seq<nat>)
    requires |at| == |call| && forall i :: 0 <= i < |at| ==> q(at[i]) == r(call[i])
    ensures Fetch(q, at) == Fetch(r, call)
  {
    var a, b := Fetch(q, at), Fetch(r, call);
    forall i | 0 <= i < |a| ensures a[i] == b[i] {
    }
  }

  lemma PassedOperator<V(!new)>(r: Regs<V>, q: Regs<V>, rands: seq<nat>, free: seq<nat>, rator: nat, at: nat)
    requires Passed(r, q, rands, free)
    requires if rator in rands then at == A0 + IndexOf(rator, rands) else at == rator && at > 2 + |rands| && at !in free
    ensures q(at) == r(rator)
  {
  }

  lemma GotoSound<V(!new), H>(ops: Ops<V, H>, rator: nat, at: nat, rands: seq<nat>, free: seq<nat>, r: Regs<V>, h: H)
    requires SafeFor(free, rands)
    requires if rator in rands then at == A0 + IndexOf(rator, rands) else at == rator && at > 2 + |rands| && at !in free
    ensures MakeJump(rands, free, Goto(at, |rands|)).Some?
    ensures Run(ops, MakeJump(rands, free, Goto(at, |rands|)).value, r, h) == Called(r(rator), Fetch(r, rands), h)
  {
    hide MakeJump, SafeFor, Passed, IndexOf;
    var q := MakeJumpSound(ops, rands, free, Goto(at, |rands|), r, h);
    PassedArguments(r, q, rands, free);
    PassedOperator(r, q, rands, free, rator, at);
  }

  lemma {:induction false} JumpToSound<V(!new), H>(ops: Ops<V, H>, rator: nat, rands: seq<nat>, free: seq<nat>,
          r: Regs<V>, h: H)
    requires SafeFor(free, rands) && rator !in free && (|rands| < |free| || rator > 2 + |rands|)
    ensures JumpTo(rator, rands, free).Some?
    ensures !(rator == A0 && |rands| == 1) ==>
            Run(ops, JumpTo(rator, rands, free).value, r, h) == Called(r(rator), Fetch(r, rands), h)
    ensures rator == A0 && |rands| == 1 ==> JumpTo(rator, rands, free).value == Ret(rands[0])
    decreases if rator <= 2 + |rands| then 1 else 0
  {
    hide MakeJump, SafeFor, IndexOf;
    var n := |rands|;
    if rator == A0 && n == 1 {
    } else if rator in rands {
      GotoSound(ops, rator, A0 + IndexOf(rator, rands), rands, free, r, h);
    } else if rator > 2 + n {
      GotoSound(ops, rator, rator, rands, free, r, h);
    } else {
      SafeRest(free, rands);
      JumpToSound(ops, free[0], rands, free[1..], Put(r, free[0], r(rator)), h);
      FetchElsewhere(r, free[0], r(rator), rands);
    }
  }

  lemma SafeRest(free: seq<nat>, call: seq<nat>)
    requires SafeFor(free, call) && |call| < |free|
    ensures SafeFor(free[1..], call) && free[0] !in free[1..] && free[0] > 2 + |call| && free[0] !in call
  {
  }

  lemma FetchElsewhere<V>(r: Regs<V>, x: nat, v: V, regs: seq<nat>)
    requires x !in regs
    ensures Fetch(Put(r, x, v), regs) == Fetch(r, regs)
  {
    assert forall i :: 0 <= i < |regs| ==> Put(r, x, v)(regs[i]) == r(regs[i]);
  }

  /** Every call compiles, and the code calls what the operator register held with what the operand
      registers held. */
  lemma CallAllSound<V(!new), H>(ops: Ops<V, H>, all: seq<nat>, r: Regs<V>, h: H)
    requires |all| > 0
    ensures CallAll(all).Some?
    ensures Run(ops, CallAll(all).value, r, h) == Intended(all[0], all[1..], r, h)
  {
    var free := SafeRegisters(|all| + A0 + 1, |all|, all);
    assert forall x :: x in all[1..] ==> x in all;
    JumpToSound(ops, all[0], all[1..], free, r, h);
  }
}
