/** Register retargeting: results are computed where they are wanted. */
module Registers {
  import opened Rtl
  import opened Lists
  import opened Wrappers

  const HIGHEST := 255

  /** Registers whose value is needed, each with the registers it would best be in already. */
  type Uses = map<nat, seq<nat>>

  function Lower(s: seq<nat>): (r: seq<nat>)
    ensures forall x :: x in r <==> x in s && x < HIGHEST
  {
    if s == [] then [] else (if s[0] < HIGHEST then [s[0]] else []) + Lower(s[1..])
  }

  /** use-list: where reg would best be already; for a register that does not exist, anywhere if nowhere in
      particular. */
  function UseList(uses: Uses, reg: nat): (r: seq<nat>)
    ensures forall x :: x in r ==> x < HIGHEST
  {
    var opts := Lower(if reg in uses then uses[reg] else []);
    if reg < HIGHEST || opts != [] then opts else Range(4, HIGHEST)
  }

  lemma UseListIs(uses: Uses, reg: nat, x: nat)
    ensures x in UseList(uses, reg) <==>
              && x < HIGHEST
              && ((reg in uses && x in uses[reg])
                  || (reg >= HIGHEST && x >= 4 && (reg in uses ==> forall y :: y in uses[reg] ==> y >= HIGHEST)))
  {
    var wished := if reg in uses then uses[reg] else [];
    var opts := Lower(wished);
    assert opts != [] ==> opts[0] in opts;
    if y :| y in wished && y < HIGHEST {
      assert y in opts;
    }
  }

  function Touch(uses: Uses, regs: seq<nat>): Uses {
    map k | k in uses.Keys + Elems(regs) :: if k in uses then uses[k] else []
  }

  function Root(regs: seq<nat>): Uses {
    map k | k in Elems(regs) :: [k]
  }

  function Merge(a: Uses, b: Uses): Uses {
    map k | k in a.Keys + b.Keys :: if k in b then Union(UseList(a, k), b[k]) else a[k]
  }

  function Renamed(reg: nat, was: nat, target: nat): nat {
    if reg == was then target else reg
  }

  function RenamedAll(regs: seq<nat>, was: nat, target: nat): (r: seq<nat>)
    ensures |r| == |regs| && forall i :: 0 <= i < |regs| ==> r[i] == Renamed(regs[i], was, target)
  {
    seq(|regs|, i requires 0 <= i < |regs| => Renamed(regs[i], was, target))
  }

  function RenamedInstr(ins: Instr, was: nat, target: nat): Instr {
    match ins
    case Prim(op, args) => Prim(op, RenamedAll(args, was, target))
    case Closure(whole, lp, off, env) => Closure(whole, Renamed(lp, was, target), off, RenamedAll(env, was, target))
    case Load(_) => ins
    case Refer(from, pos) => Refer(Renamed(from, was, target), pos)
  }

  function RenamedCond(cond: Cond, was: nat, target: nat): Cond {
    match cond
    case Same(a, b) => Same(Renamed(a, was, target), Renamed(b, was, target))
    case IsNull(r) => IsNull(Renamed(r, was, target))
    case IsZero(r) => IsZero(Renamed(r, was, target))
    case IsEmpty(r) => IsEmpty(Renamed(r, was, target))
    case IsFalse(r) => IsFalse(Renamed(r, was, target))
  }

  /** rtl-rename: reads of was become reads of target, unless either is written on the way.  A list
      of results is never looked at. */
  function Rename(code: Code, was: nat, target: nat): Option<Code> {
    match code
    case Ret(val) => Some(Ret(Renamed(val, was, target)))
    case Goto(fn, nargs) => Some(Goto(Renamed(fn, was, target), nargs))
    case Move(a, b, more) =>
      if b == target then
        if b == Renamed(a, was, target) then Rename(more, was, target) else None
      else if a == target || b == was then None
      else
        var more' := Rename(more, was, target);
        if more'.None? || Renamed(a, was, target) == b then more'
        else Some(Move(Renamed(a, was, target), b, more'.value))
    case Set(ins, to, more) =>
      if to == target || to != Renamed(to, was, target) then None
      else
        var more' := Rename(more, was, target);
        if more'.None? then None else Some(Set(RenamedInstr(ins, was, target), to, more'.value))
    case Bind(op, args, tos, more) =>
      var more' := Rename(more, was, target);
      if more'.None? then None else Some(Bind(op, RenamedAll(args, was, target), tos, more'.value))
    case Jump(cond, yes, no) =>
      var yes', no' := Rename(yes, was, target), Rename(no, was, target);
      if yes'.None? || no'.None? then None else Some(Jump(RenamedCond(cond, was, target), yes'.value, no'.value))
  }

  /** The registers that single results are put into. */
  function Results(code: Code): set<nat> {
    match code
    case Move(_, _, more) => Results(more)
    case Set(_, to, more) => {to} + Results(more)
    case Bind(_, _, _, more) => Results(more)
    case Jump(_, yes, no) => Results(yes) + Results(no)
    case _ => {}
  }

  /** From, to. */
  function MovesOf(code: Code): set<(nat, nat)> {
    match code
    case Move(a, b, more) => {(a, b)} + MovesOf(more)
    case Set(_, _, more) => MovesOf(more)
    case Bind(_, _, _, more) => MovesOf(more)
    case Jump(_, yes, no) => MovesOf(yes) + MovesOf(no)
    case _ => {}
  }

  ghost predicate Renamable(code: Code, was: nat, target: nat) {
    && was !in Results(code) && target !in Results(code)
    && forall m :: m in MovesOf(code) ==>
         if m.1 == target then m.0 == was || m.0 == target else m.0 != target && m.1 != was
  }

  /** A register can be renamed if and only if no result is put into it or into its new name, nothing is moved into it,
      and into its new name only what is in one of the two, and what is in the new name is moved nowhere else. */
  lemma {:induction false} RenameExact(code: Code, was: nat, target: nat)
    requires was != target
    ensures Rename(code, was, target).Some? <==> Renamable(code, was, target)
  {
    match code
    case Ret(_) =>
    case Goto(_, _) =>
    case Move(a, b, more) =>
      RenameExact(more, was, target);
      assert (a, b) in MovesOf(code);
    case Set(_, _, more) => RenameExact(more, was, target);
    case Bind(_, _, _, more) => RenameExact(more, was, target);
    case Jump(_, yes, no) =>
      RenameExact(yes, was, target);
      RenameExact(no, was, target);
  }

  /** Some instruction of the code moves a to b. */
  predicate HasMove(code: Code, a: nat, b: nat) {
    match code
    case Move(src, dst, more) => (src == a && dst == b) || HasMove(more, a, b)
    case Set(_, _, more) => HasMove(more, a, b)
    case Bind(_, _, _, more) => HasMove(more, a, b)
    case Jump(_, yes, no) => HasMove(yes, a, b) || HasMove(no, a, b)
    case _ => false
  }

  function Moves(code: Code): nat {
    match code
    case Move(_, _, more) => 1 + Moves(more)
    case Set(_, _, more) => Moves(more)
    case Bind(_, _, _, more) => Moves(more)
    case Jump(_, yes, no) => Moves(yes) + Moves(no)
    case _ => 0
  }

  /** How many results are still to be put into one of the registers there are. */
  function High(code: Code): nat {
    match code
    case Move(_, _, more) => High(more)
    case Set(_, to, more) => (if to >= HIGHEST then 1 else 0) + High(more)
    case Bind(_, _, _, more) => High(more)
    case Jump(_, yes, no) => High(yes) + High(no)
    case _ => 0
  }

  lemma {:induction false} RenameShrinks(code: Code, was: nat, target: nat)
    requires Rename(code, was, target).Some? && was != target
    ensures High(Rename(code, was, target).value) == High(code)
    ensures Moves(Rename(code, was, target).value) <= Moves(code)
    ensures HasMove(code, was, target) ==> Moves(Rename(code, was, target).value) < Moves(code)
  {
    match code
    case Ret(_) =>
    case Goto(_, _) =>
    case Move(_, _, more) => RenameShrinks(more, was, target);
    case Set(_, _, more) => RenameShrinks(more, was, target);
    case Bind(_, _, _, more) => RenameShrinks(more, was, target);
    case Jump(_, yes, no) =>
      RenameShrinks(yes, was, target);
      RenameShrinks(no, was, target);
  }

  /** retarget-first: the first of the good places that is free and to which the code can be
      adapted, or the old one. */
  function Retarget(code: Code, was: nat, news: seq<nat>, uses: Uses): (r: (nat, Code))
    ensures r.0 == was ==> r.1 == code
    ensures r.0 != was ==> r.0 in news && r.0 !in uses && !(was in news && was < HIGHEST)
    ensures r.0 != was ==> Rename(code, was, r.0) == Some(r.1)
  {
    if news == [] || (was in news && was < HIGHEST) then (was, code)
    else
      var target := news[0];
      if was == target || target in uses then Retarget(code, was, news[1..], uses)
      else
        var code' := Rename(code, was, target);
        if code'.Some? then (target, code'.value) else Retarget(code, was, news[1..], uses)
  }

  /** Where the result of ins might as well go. */
  function Good(ins: Instr, to: nat, uses: Uses): (r: seq<nat>)
    ensures forall x :: x in r ==> x < HIGHEST
  {
    UseList(uses, to) + if ins.Load? && to > HIGHEST then Range(0, HIGHEST) else []
  }

  /** Registers that must not be disturbed, as each kind of instruction reckons them. */
  function Taken(ins: Instr, to: nat, uses: Uses): Uses {
    match ins
    case Refer(from, _) => Touch(uses, [from]) - {to}
    case Closure(_, _, _, _) => uses - {to}
    case _ => uses
  }

  /** What the last instruction needs; the registers it does not name wish to stay. */
  function EndUses(code: Code): Uses
    requires code.Ret? || code.Goto?
  {
    match code
    case Ret(val) => if val > HIGHEST then Root([A0])[val := Range(4, HIGHEST)] else Touch(Root([A0]), [val])
    case Goto(fn, nargs) => Root([fn] + Range(A0, A0 + 1 + nargs))
  }

  /** Wishes come from moves, or from a register having no place of its own. */
  ghost predicate Wished(code: Code, uses: Uses) {
    forall x, w :: x in uses && w in uses[x] && w != x ==> HasMove(code, x, w) || (x >= HIGHEST && 4 <= w < HIGHEST)
  }

  lemma WishList(code: Code, uses: Uses, x: nat, w: nat)
    requires Wished(code, uses) && w in UseList(uses, x) && w != x
    ensures HasMove(code, x, w) || (x >= HIGHEST && 4 <= w < HIGHEST)
  {
  }

  /** What is needed before a move: its source, best already in the register it is moved to. */
  function MoveUses(uses: Uses, a: nat, b: nat): Uses {
    var less := uses - {b};
    var wishes := UseList(less, a);
    if b in wishes then less else less[a := [b] + wishes]
  }

  lemma WishedMove(code: Code, uses: Uses, a: nat, b: nat, more: Code)
    requires Wished(more, uses) && code == Move(a, b, more)
    ensures Wished(code, MoveUses(uses, a, b))
  {
    var less := uses - {b};
    forall w | w in UseList(less, a) && w != a ensures HasMove(code, a, w) || (a >= HIGHEST && 4 <= w < HIGHEST) {
      WishList(more, less, a, w);
    }
  }

  lemma WishedEnd(code: Code)
    requires code.Ret? || code.Goto?
    ensures Wished(code, EndUses(code))
  {
  }

  lemma WishedSet(ins: Instr, to: nat, more: Code, uses: Uses)
    requires Wished(more, uses)
    ensures Wished(Set(ins, to, more), Touch(uses - {to}, Reads(ins)))
  {
  }

  lemma WishedBind(op: nat, args: seq<nat>, tos: seq<nat>, more: Code, uses: Uses)
    requires Wished(more, uses)
    ensures Wished(Bind(op, args, tos, more), Touch(uses, args))
  {
  }

  lemma WishedMerge(cond: Cond, yes: Code, a: Uses, no: Code, b: Uses)
    requires Wished(yes, a) && Wished(no, b)
    ensures Wished(Jump(cond, yes, no), Touch(Merge(a, b), Tests(cond)))
  {
    var uses := Touch(Merge(a, b), Tests(cond));
    forall x, w | x in uses && w in uses[x] && w != x
      ensures HasMove(yes, x, w) || HasMove(no, x, w) || (x >= HIGHEST && 4 <= w < HIGHEST)
    {
      if x in b && w in UseList(a, x) { WishList(yes, a, x, w); }
    }
  }

  /** What retargeting does not make worse. */
  ghost predicate Settled(code: Code, code': Code, uses: Uses) {
    High(code') <= High(code) && Moves(code') <= Moves(code) && Wished(code', uses)
  }

  /** A result that finds a better place leaves less to be done. */
  lemma RetargetShrinks(ins: Instr, to: nat, more: Code, uses: Uses, to': nat, more': Code)
    requires Wished(more, uses) && (to', more') == Retarget(more, to, Good(ins, to, uses), Taken(ins, to, uses))
          && to' != to
    ensures High(more') == High(more) && Moves(more') <= Moves(more)
    ensures to' < HIGHEST && (to < HIGHEST ==> Moves(more') < Moves(more))
  {
    RenameShrinks(more, to, to');
    if to < HIGHEST {
      WishList(more, uses, to, to');
    }
  }

  /** rtl-retard: the code with its results retargeted, and what it needs.  There is none when a
      register to move to does not exist. */
  function Retard(code: Code): (r: Option<(Code, Uses)>)
    ensures r.Some? ==> Settled(code, r.value.0, r.value.1)
    decreases High(code), Moves(code), code
  {
    match code
    case Ret(_) => WishedEnd(code); Some((code, EndUses(code)))
    case Goto(_, _) => WishedEnd(code); Some((code, EndUses(code)))
    case Move(a, b, more) =>
      if a == b then Retard(more)
      else if b > HIGHEST then None
      else
        var tail := Retard(more);
        if tail.None? then None
        else
          WishedMove(Move(a, b, tail.value.0), tail.value.1, a, b, tail.value.0);
          Some((Move(a, b, tail.value.0), MoveUses(tail.value.1, a, b)))
    case Set(ins, to, more) =>
      var tail := Retard(more);
      if tail.None? then None
      else
        var uses := tail.value.1;
        var (to', more') := Retarget(tail.value.0, to, Good(ins, to, uses), Taken(ins, to, uses));
        WishedSet(ins, to, tail.value.0, uses);
        if to' == to then Some((Set(ins, to, more'), Touch(uses - {to}, Reads(ins))))
        else
          RetargetShrinks(ins, to, tail.value.0, uses, to', more');
          Retard(Set(ins, to', more'))
    case Bind(op, args, tos, more) =>
      var tail := Retard(more);
      if tail.None? then None
      else
        WishedBind(op, args, tos, tail.value.0, tail.value.1);
        Some((Bind(op, args, tos, tail.value.0), Touch(tail.value.1, args)))
    case Jump(cond, yes, no) =>
      var y, n := Retard(yes), Retard(no);
      if y.None? || n.None? then None
      else
        WishedMerge(cond, y.value.0, y.value.1, n.value.0, n.value.1);
        Some((Jump(cond, y.value.0, n.value.0), Touch(Merge(y.value.1, n.value.1), Tests(cond))))
  }

  /** What becomes of one instruction. */
  lemma RetardSet(ins: Instr, to: nat, more: Code) returns (tail: Code, uses: Uses, to': nat, more': Code)
    requires Retard(Set(ins, to, more)).Some?
    ensures Retard(more) == Some((tail, uses)) && Wished(tail, uses)
    ensures (to', more') == Retarget(tail, to, Good(ins, to, uses), Taken(ins, to, uses))
    ensures to' == to ==> Retard(Set(ins, to, more)).value == (Set(ins, to, tail), Touch(uses - {to}, Reads(ins)))
    ensures to' != to ==>
              && Retard(Set(ins, to, more)) == Retard(Set(ins, to', more'))
              && to' < HIGHEST && High(more') <= High(more) && Moves(more') <= Moves(more)
              && (to < HIGHEST ==> Moves(more') < Moves(more))
  {
    tail, uses := Retard(more).value.0, Retard(more).value.1;
    var (at, rest) := Retarget(tail, to, Good(ins, to, uses), Taken(ins, to, uses));
    to', more' := at, rest;
    if to' != to {
      RetargetShrinks(ins, to, tail, uses, to', more');
    }
  }

  // ---- When there is an allocation ----

  /** Every move goes to a register that exists, or nowhere. */
  predicate LowMoves(code: Code) {
    match code
    case Move(a, b, more) => (a == b || b <= HIGHEST) && LowMoves(more)
    case Set(_, _, more) => LowMoves(more)
    case Bind(_, _, _, more) => LowMoves(more)
    case Jump(_, yes, no) => LowMoves(yes) && LowMoves(no)
    case _ => true
  }

  lemma {:induction false} RenameLow(code: Code, was: nat, target: nat)
    requires Rename(code, was, target).Some? && target < HIGHEST
    ensures LowMoves(Rename(code, was, target).value) <==> LowMoves(code)
  {
    match code
    case Ret(_) =>
    case Goto(_, _) =>
    case Move(_, _, more) => RenameLow(more, was, target);
    case Set(_, _, more) => RenameLow(more, was, target);
    case Bind(_, _, _, more) => RenameLow(more, was, target);
    case Jump(_, yes, no) =>
      RenameLow(yes, was, target);
      RenameLow(no, was, target);
  }

  /** Moving to a register above the highest is the only thing that goes wrong. */
  lemma {:induction false} RetardExact(code: Code)
    ensures Retard(code).Some? <==> LowMoves(code)
    ensures Retard(code).Some? ==> LowMoves(Retard(code).value.0) && NoSelfMoves(Retard(code).value.0)
    decreases High(code), Moves(code), code
  {
    match code
    case Ret(_) =>
    case Goto(_, _) =>
    case Move(_, _, more) => RetardExact(more);
    case Set(ins, to, more) =>
      RetardExact(more);
      if Retard(more).Some? {
        var tail, uses := Retard(more).value.0, Retard(more).value.1;
        var (to', more') := Retarget(tail, to, Good(ins, to, uses), Taken(ins, to, uses));
        if to' != to {
          RetargetShrinks(ins, to, tail, uses, to', more');
          RenameLow(tail, to, to');
          RetardExact(Set(ins, to', more'));
        }
      }
    case Bind(_, _, _, more) => RetardExact(more);
    case Jump(_, yes, no) =>
      RetardExact(yes);
      RetardExact(no);
  }

  /** Moves that do nothing are dropped. */
  predicate NoSelfMoves(code: Code) {
    match code
    case Move(a, b, more) => a != b && NoSelfMoves(more)
    case Set(_, _, more) => NoSelfMoves(more)
    case Bind(_, _, _, more) => NoSelfMoves(more)
    case Jump(_, yes, no) => NoSelfMoves(yes) && NoSelfMoves(no)
    case _ => true
  }

  // ---- What is retargeted ----

  /** A result stays where it is just when it is best there, or every better place is in use or cannot be had. */
  lemma {:induction false} RetargetExact(code: Code, was: nat, news: seq<nat>, uses: Uses)
    ensures Retarget(code, was, news, uses).0 == was <==>
              (was in news && was < HIGHEST)
              || forall w :: w in news ==> w == was || w in uses || Rename(code, was, w).None?
  {
    if news != [] && !(was in news && was < HIGHEST) {
      RetargetExact(code, was, news[1..], uses);
      assert forall w :: w in news <==> w == news[0] || w in news[1..];
    }
  }

  /** What is in x when the code starts is moved to w by it, on some path. */
  predicate Leads(code: Code, x: nat, w: nat) {
    match code
    case Move(a, b, more) => (a == x && b == w) || (b != x && Leads(more, x, w))
    case Set(_, to, more) => to != x && Leads(more, x, w)
    case Bind(_, _, _, more) => Leads(more, x, w)
    case Jump(_, yes, no) => Leads(yes, x, w) || Leads(no, x, w)
    case _ => false
  }

  lemma WishMoved(uses: Uses, a: nat, b: nat, x: nat, w: nat)
    requires x < HIGHEST && w < HIGHEST && a != b && ((a == x && b == w) || (b != x && w in UseList(uses, x)))
    ensures w in UseList(MoveUses(uses, a, b), x)
  {
  }

  lemma WishKept(uses: Uses, to: nat, regs: seq<nat>, x: nat, w: nat)
    requires x < HIGHEST && w in UseList(uses, x) && to != x
    ensures w in UseList(Touch(uses - {to}, regs), x) && w in UseList(Touch(uses, regs), x)
  {
  }

  lemma WishMerged(a: Uses, b: Uses, regs: seq<nat>, x: nat, w: nat)
    requires x < HIGHEST && (w in UseList(a, x) || w in UseList(b, x))
    ensures w in UseList(Touch(Merge(a, b), regs), x)
  {
  }

  /** No place is missed that a value is moved to. */
  lemma {:induction false} WishesFound(code: Code, x: nat, w: nat)
    requires Retard(code).Some? && x < HIGHEST && w < HIGHEST && Leads(Retard(code).value.0, x, w)
    ensures w in UseList(Retard(code).value.1, x)
    decreases High(code), Moves(code), code
  {
    hide UseList, Touch, Merge, MoveUses, Settled, Wished, Retarget, Good, Taken, EndUses;
    match code
    case Move(a, b, more) =>
      if a == b || (b != x && Leads(Retard(more).value.0, x, w)) { WishesFound(more, x, w); }
      if a != b { WishMoved(Retard(more).value.1, a, b, x, w); }
    case Set(ins, to, more) =>
      var tail, uses, to', more' := RetardSet(ins, to, more);
      if to' == to {
        WishesFound(more, x, w);
        WishKept(uses, to, Reads(ins), x, w);
      } else {
        WishesFound(Set(ins, to', more'), x, w);
      }
    case Bind(_, args, _, more) =>
      WishesFound(more, x, w);
      WishKept(Retard(more).value.1, x + 1, args, x, w);
    case Jump(cond, yes, no) =>
      if Leads(Retard(yes).value.0, x, w) { WishesFound(yes, x, w); }
      if Leads(Retard(no).value.0, x, w) { WishesFound(no, x, w); }
      WishMerged(Retard(yes).value.1, Retard(no).value.1, Tests(cond), x, w);
  }

  /** Where a value would be lost: the register is in use, or it is the one that it is read from. */
  predicate Occupied(ins: Instr, uses: Uses, w: nat) {
    w in uses || (ins.Refer? && w == ins.from)
  }

  /** The registers that code is taken to need: some more than those that are live, as a call is given one more, and
      a list of results is not looked at. */
  function InUse(code: Code): set<nat> {
    match code
    case Ret(val) => {A0, val}
    case Goto(fn, nargs) => {fn} + Elems(Range(A0, A0 + 1 + nargs))
    case Move(a, b, more) => InUse(more) - {b} + {a}
    case Set(ins, to, more) => InUse(more) - {to} + Elems(Reads(ins))
    case Bind(_, args, _, more) => InUse(more) + Elems(args)
    case Jump(cond, yes, no) => InUse(yes) + InUse(no) + Elems(Tests(cond))
  }

  /** Of the registers that exist the uses are of just those. */
  lemma {:induction false} UsesExact(code: Code, x: nat)
    requires Retard(code).Some? && x < HIGHEST
    ensures x in Retard(code).value.1 <==> x in InUse(Retard(code).value.0)
    decreases High(code), Moves(code), code
  {
    hide Settled, Wished, Retarget, Good, Taken;
    match code
    case Ret(_) =>
    case Goto(_, _) =>
    case Move(_, _, more) => UsesExact(more, x);
    case Set(ins, to, more) =>
      var tail, uses, to', more' := RetardSet(ins, to, more);
      if to' == to { UsesExact(more, x); } else { UsesExact(Set(ins, to', more'), x); }
    case Bind(_, _, _, more) => UsesExact(more, x);
    case Jump(_, yes, no) =>
      UsesExact(yes, x);
      UsesExact(no, x);
  }

  /** w can take the place of `to`. */
  ghost predicate CanTake(ins: Instr, to: nat, tail: Code, uses: Uses, w: nat) {
    w < HIGHEST && w != to && !Occupied(ins, uses, w) && Renamable(tail, to, w)
  }

  /** w is a place for the result: it is moved there, or w is wished for, or the result is a constant that has no
      register that exists. */
  ghost predicate Place(ins: Instr, to: nat, tail: Code, uses: Uses, w: nat) {
    (to < HIGHEST && Leads(tail, to, w)) || w in UseList(uses, to) || (ins.Load? && to > HIGHEST)
  }

  /** A result stays in its register only if it is wanted there, or none of its places can be had; otherwise it goes to
      one that can. */
  lemma ResultPlaced(ins: Instr, to: nat, more: Code)
    requires Retard(more).Some?
    ensures var (tail, uses) := Retard(more).value;
            || (&& Retard(Set(ins, to, more)) == Some((Set(ins, to, tail), Touch(uses - {to}, Reads(ins))))
                && (to in UseList(uses, to)
                    || forall w :: Place(ins, to, tail, uses, w) ==> !CanTake(ins, to, tail, uses, w)))
            || (exists w :: Place(ins, to, tail, uses, w) && CanTake(ins, to, tail, uses, w)
                  && Rename(tail, to, w).Some?
                  && Retard(Set(ins, to, more)) == Retard(Set(ins, w, Rename(tail, to, w).value)))
  {
    hide UseList, Wished, Leads, Renamable, Retarget;
    var (tail, uses) := Retard(more).value;
    var good, taken := Good(ins, to, uses), Taken(ins, to, uses);
    var (to', more') := Retarget(tail, to, good, taken);
    if to' == to {
      RetargetExact(tail, to, good, taken);
      forall w | Place(ins, to, tail, uses, w) && CanTake(ins, to, tail, uses, w) ensures to in UseList(uses, to) {
        if to < HIGHEST && Leads(tail, to, w) { WishesFound(more, to, w); }
        RenameExact(tail, to, w);
        assert w in good;
      }
    } else {
      RenameExact(tail, to, to');
      RetargetShrinks(ins, to, tail, uses, to', more');
      assert to' in good && CanTake(ins, to, tail, uses, to') && Place(ins, to, tail, uses, to');
    }
  }

  lemma UsesAfter(b: nat)
    requires b < HIGHEST
    ensures EndUses(Ret(b)) == map[A0 := [A0]][b := if b == A0 then [A0] else []]
  {
  }

  /** A result that is moved and returned is computed where it is returned from. */
  lemma MovedOn(ins: Instr, a: nat, b: nat)
    requires !ins.Refer? && a < HIGHEST && b < HIGHEST && a != b && a != A0 && b != A0
    ensures AllocateRegisters(Set(ins, a, Move(a, b, Ret(b)))) == Some(Set(ins, b, Ret(b)))
  {
    var move := Move(a, b, Ret(b));
    UsesAfter(b);
    assert Retard(Ret(b)) == Some((Ret(b), EndUses(Ret(b))));
    var uses := MoveUses(EndUses(Ret(b)), a, b);
    assert Retard(move) == Some((move, uses));
    assert EndUses(Ret(b)) - {b} == map[A0 := [A0]] && UseList(map[A0 := [A0]], a) == [];
    assert [b] + [] == [b] && uses == map[A0 := [A0]][a := [b]];
    assert [b][1..] == [] && Lower([b]) == [b];
    assert UseList(uses, a) == [b];
    assert Good(ins, a, uses) == [b];
    assert Rename(move, a, b) == Some(Ret(b));
    assert Retarget(move, a, [b], Taken(ins, a, uses)) == (b, Ret(b));
    assert Retard(Set(ins, a, move)) == Retard(Set(ins, b, Ret(b)));
    Stays(ins, b);
  }

  lemma Stays(ins: Instr, b: nat)
    requires !ins.Refer? && b < HIGHEST && b != A0
    ensures Retard(Set(ins, b, Ret(b))).Some? && Retard(Set(ins, b, Ret(b))).value.0 == Set(ins, b, Ret(b))
  {
    UsesAfter(b);
    var uses := EndUses(Ret(b));
    assert UseList(uses, b) == [] && Good(ins, b, uses) == [];
    assert Retarget(Ret(b), b, [], Taken(ins, b, uses)) == (b, Ret(b));
  }

  /** A result in a register that does not exist, and returned, gets the first that is free. */
  lemma HighMoved(ins: Instr, a: nat)
    requires !ins.Refer? && a > HIGHEST
    ensures AllocateRegisters(Set(ins, a, Ret(a))) == Some(Set(ins, 4, Ret(4)))
  {
    hide Range;
    var uses := EndUses(Ret(a));
    assert uses == map[A0 := [A0]][a := Range(4, HIGHEST)];
    LowerAll(Range(4, HIGHEST));
    assert UseList(uses, a) == Range(4, HIGHEST);
    var news := Good(ins, a, uses);
    assert news[0] == 4 && 4 !in Taken(ins, a, uses);
    assert Rename(Ret(a), a, 4) == Some(Ret(4));
    assert Retarget(Ret(a), a, news, Taken(ins, a, uses)) == (4, Ret(4));
    assert Retard(Set(ins, a, Ret(a))) == Retard(Set(ins, 4, Ret(4)));
    Stays(ins, 4);
  }

  lemma {:induction false} LowerAll(s: seq<nat>)
    requires forall x :: x in s ==> x < HIGHEST
    ensures Lower(s) == s
  {
    if s != [] {
      assert s[0] in s && forall x :: x in s[1..] ==> x in s;
      LowerAll(s[1..]);
      assert s == [s[0]] + s[1..];
    }
  }

  // ---- Renaming keeps the meaning ----

  /** Registers written by instructions with a list of results. */
  function ListWrites(code: Code): set<nat> {
    match code
    case Move(_, _, more) => ListWrites(more)
    case Set(_, _, more) => ListWrites(more)
    case Bind(_, _, tos, more) => Elems(tos) + ListWrites(more)
    case Jump(_, yes, no) => ListWrites(yes) + ListWrites(no)
    case _ => {}
  }

  /** Registers read without being named: the continuation of a return, the arguments of a call. */
  function Implicit(code: Code): set<nat> {
    match code
    case Ret(_) => {A0}
    case Goto(_, nargs) => Elems(Range(A0, A0 + nargs))
    case Move(_, dst, more) => Implicit(more) - {dst}
    case Set(_, to, more) => Implicit(more) - {to}
    case Bind(_, _, tos, more) => Implicit(more) - Elems(tos)
    case Jump(_, yes, no) => Implicit(yes) + Implicit(no)
  }

  /** r' holds what r does, with the value of `was` in `target`, as far as the code cares. */
  ghost predicate Agree<V(!new)>(code: Code, was: nat, target: nat, r: Regs<V>, r': Regs<V>) {
    && r'(0) == r(0)
    && forall x :: x in Live(code) ==> r'(Renamed(x, was, target)) == r(x)
  }

  lemma FetchRenamed<V>(r: Regs<V>, r': Regs<V>, regs: seq<nat>, was: nat, target: nat)
    requires forall x :: x in regs ==> r'(Renamed(x, was, target)) == r(x)
    ensures Fetch(r', RenamedAll(regs, was, target)) == Fetch(r, regs)
  {
    forall i | 0 <= i < |regs| ensures r'(RenamedAll(regs, was, target)[i]) == r(regs[i]) {
      assert regs[i] in regs;
    }
  }

  lemma ReadsRenamed(ins: Instr, was: nat, target: nat)
    ensures Reads(RenamedInstr(ins, was, target)) == RenamedAll(Reads(ins), was, target)
  {
  }

  lemma TestsRenamed(cond: Cond, was: nat, target: nat)
    ensures Tests(RenamedCond(cond, was, target)) == RenamedAll(Tests(cond), was, target)
  {
  }

  lemma StepRenamed<V, H>(ops: Ops<V, H>, ins: Instr, was: nat, target: nat, vals: seq<V>, h: H)
    requires |vals| == |Reads(ins)|
    ensures |vals| == |Reads(RenamedInstr(ins, was, target))|
    ensures Step(ops, RenamedInstr(ins, was, target), vals, h) == Step(ops, ins, vals, h)
  {
    ReadsRenamed(ins, was, target);
  }

  /** Renamed code does, where the value has been put in `target`, what the code did where it was in
      `was`, as long as no list of results writes either of them. */
  lemma {:induction false} RenameSound<V(!new), H>(ops: Ops<V, H>, code: Code, was: nat, target: nat, r: Regs<V>,
          r': Regs<V>, h: H)
    requires Rename(code, was, target).Some? && was != target && target != 0
    requires was !in ListWrites(code) && target !in ListWrites(code)
    requires was !in Implicit(code) && Agree(code, was, target, r, r')
    ensures Run(ops, Rename(code, was, target).value, r', h) == Run(ops, code, r, h)
    decreases code, 1
  {
    match code
    case Ret(_) =>
    case Goto(_, nargs) =>
      assert Fetch(r', Range(A0, A0 + nargs)) == Fetch(r, Range(A0, A0 + nargs)) by {
        forall x | x in Range(A0, A0 + nargs) ensures r'(x) == r(x) {
          assert x in Live(code) && x in Implicit(code);
        }
      }
    case Move(a, b, more) =>
      RenameSoundMove(ops, code, was, target, r, r', h);
    case Set(ins, to, more) =>
      FetchRenamed(r, r', Reads(ins), was, target);
      ReadsRenamed(ins, was, target);
      var vals := Fetch(r, Reads(ins));
      StepRenamed(ops, ins, was, target, vals, h);
      var out := Step(ops, ins, vals, h);
      if out.Some? {
        RenameSound(ops, more, was, target, Put(r, to, out.value.0), Put(r', to, out.value.0), out.value.1);
      }
    case Bind(op, args, tos, more) =>
      RenameSoundBind(ops, code, was, target, r, r', h);
    case Jump(cond, yes, no) =>
      FetchRenamed(r, r', Tests(cond), was, target);
      TestsRenamed(cond, was, target);
      if Holds(ops, cond, Fetch(r, Tests(cond))) {
        RenameSound(ops, yes, was, target, r, r', h);
      } else {
        RenameSound(ops, no, was, target, r, r', h);
      }
  }

  lemma {:induction false} RenameSoundMove<V(!new), H>(ops: Ops<V, H>, code: Code, was: nat, target: nat,
          r: Regs<V>, r': Regs<V>, h: H)
    requires code.Move? && Rename(code, was, target).Some? && was != target && target != 0
    requires was !in ListWrites(code) && target !in ListWrites(code)
    requires was !in Implicit(code) && Agree(code, was, target, r, r')
    ensures Run(ops, Rename(code, was, target).value, r', h) == Run(ops, code, r, h)
    decreases code, 0
  {
    var a, b, more := code.src, code.dst, code.more;
    if b == target || Renamed(a, was, target) == b {
      RenameSound(ops, more, was, target, Put(r, b, r(a)), r', h);
    } else {
      RenameSound(ops, more, was, target, Put(r, b, r(a)), Put(r', b, r'(Renamed(a, was, target))), h);
    }
  }

  lemma {:induction false} RenameSoundBind<V(!new), H>(ops: Ops<V, H>, code: Code, was: nat, target: nat,
          r: Regs<V>, r': Regs<V>, h: H)
    requires code.Bind? && Rename(code, was, target).Some? && was != target && target != 0
    requires was !in ListWrites(code) && target !in ListWrites(code)
    requires was !in Implicit(code) && Agree(code, was, target, r, r')
    ensures Run(ops, Rename(code, was, target).value, r', h) == Run(ops, code, r, h)
    decreases code, 0
  {
    var Bind(op, args, tos, more) := code;
    FetchRenamed(r, r', args, was, target);
    var vals := Fetch(r, args);
    var out := ops.bind(op, |tos|, vals, h);
    if out.Some? && |out.value.0| == |tos| {
      var q, q' := PutAll(r, tos, out.value.0), PutAll(r', tos, out.value.0);
      PutAllAt(r, r', tos, out.value.0, 0, 0);
      forall x | x in Live(more) ensures q'(Renamed(x, was, target)) == q(x) {
        PutAllAt(r, r', tos, out.value.0, x, Renamed(x, was, target));
      }
      RenameSound(ops, more, was, target, q, q', out.value.1);
    }
  }

  // ---- Retargeting keeps the meaning ----

  function MoveTargets(code: Code): set<nat> {
    match code
    case Move(_, dst, more) => {dst} + MoveTargets(more)
    case Set(_, _, more) => MoveTargets(more)
    case Bind(_, _, _, more) => MoveTargets(more)
    case Jump(_, yes, no) => MoveTargets(yes) + MoveTargets(no)
    case _ => {}
  }

  /** Registers that some result may be retargeted to. */
  function Targets(code: Code): set<nat> {
    MoveTargets(code) + if High(code) > 0 then Elems(Range(4, HIGHEST)) else {}
  }

  /** Code that retargeting cannot hurt: arguments are passed below the highest register, results
      go above the reserved ones, a load is not put out of range, and what a list of results writes
      is not written before, and is either needed afterwards or no place for others to be put. */
  ghost predicate Orderly(code: Code, targets: set<nat>) {
    match code
    case Ret(_) => true
    case Goto(_, nargs) => A0 + nargs <= HIGHEST
    case Move(_, dst, more) => dst >= A0 && dst !in ListWrites(more) && Orderly(more, targets)
    case Set(ins, to, more) =>
      && to >= A0 && (ins.Load? ==> to <= HIGHEST)
      && to !in ListWrites(more) && Orderly(more, targets)
    case Bind(_, _, tos, more) =>
      (forall d :: d in tos && d in targets ==> d in Live(more)) && Orderly(more, targets)
    case Jump(_, yes, no) => Orderly(yes, targets) && Orderly(no, targets)
  }

  lemma {:induction false} RenameLive(code: Code, was: nat, target: nat, x: nat)
    requires Rename(code, was, target).Some? && x in Live(code) && x != was && x != target
    ensures x in Live(Rename(code, was, target).value)
  {
    match code
    case Ret(_) =>
    case Goto(_, _) =>
    case Move(_, _, more) =>
      if x in Live(more) { RenameLive(more, was, target, x); }
    case Set(ins, _, more) =>
      ReadsRenamed(ins, was, target);
      if x in Live(more) { RenameLive(more, was, target, x); }
      KeptRead(Reads(ins), was, target, x);
    case Bind(_, args, _, more) =>
      if x in Live(more) { RenameLive(more, was, target, x); }
      KeptRead(args, was, target, x);
    case Jump(cond, yes, no) =>
      TestsRenamed(cond, was, target);
      if x in Live(yes) { RenameLive(yes, was, target, x); }
      if x in Live(no) { RenameLive(no, was, target, x); }
      KeptRead(Tests(cond), was, target, x);
  }

  lemma KeptRead(regs: seq<nat>, was: nat, target: nat, x: nat)
    requires x != was
    ensures x in regs ==> x in RenamedAll(regs, was, target)
  {
    if x in regs {
      var i :| 0 <= i < |regs| && regs[i] == x;
      assert RenamedAll(regs, was, target)[i] == x;
    }
  }

  lemma {:induction false} RenameOrderly(code: Code, was: nat, target: nat, targets: set<nat>)
    requires Rename(code, was, target).Some? && Orderly(code, targets)
    requires was !in ListWrites(code) && target !in ListWrites(code)
    ensures Orderly(Rename(code, was, target).value, targets)
    ensures ListWrites(Rename(code, was, target).value) == ListWrites(code)
    ensures MoveTargets(Rename(code, was, target).value) <= MoveTargets(code)
  {
    match code
    case Ret(_) =>
    case Goto(_, _) =>
    case Move(_, _, more) => RenameOrderly(more, was, target, targets);
    case Set(_, _, more) => RenameOrderly(more, was, target, targets);
    case Bind(_, _, tos, more) =>
      RenameOrderly(more, was, target, targets);
      forall d | d in tos && d in targets ensures d in Live(Rename(more, was, target).value) {
        RenameLive(more, was, target, d);
      }
    case Jump(_, yes, no) =>
      RenameOrderly(yes, was, target, targets);
      RenameOrderly(no, was, target, targets);
  }

  ghost predicate CoveredAt(code: Code, uses: Uses, targets: set<nat>, x: nat) {
    && (x in Live(code) && x < HIGHEST ==> x in uses)
    && (x in Implicit(code) ==> x < HIGHEST && x in uses && x in uses[x])
    && (x in ListWrites(code) && x < HIGHEST && x in targets ==> x in uses)
  }

  /** The uses of a piece of code tell what must not be disturbed: they cover every live register
      that can be a target, the implicit ones with a wish to stay where they are. */
  ghost predicate Covered(code: Code, uses: Uses, targets: set<nat>) {
    forall x {:trigger CoveredAt(code, uses, targets, x)} :: CoveredAt(code, uses, targets, x)
  }

  /** What retargeting keeps of orderly code. */
  ghost predicate Kept(code: Code, code': Code, uses: Uses, targets: set<nat>) {
    && Orderly(code', targets) && Covered(code', uses, targets)
    && ListWrites(code') == ListWrites(code) && MoveTargets(code') <= MoveTargets(code)
    && Live(code) <= Live(code')
  }

  lemma {:induction false} HasMoveTarget(code: Code, a: nat, b: nat)
    requires HasMove(code, a, b)
    ensures b in MoveTargets(code)
  {
    match code
    case Move(src, dst, more) => if !(src == a && dst == b) { HasMoveTarget(more, a, b); }
    case Set(_, _, more) => HasMoveTarget(more, a, b);
    case Bind(_, _, _, more) => HasMoveTarget(more, a, b);
    case Jump(_, yes, no) => if HasMove(yes, a, b) { HasMoveTarget(yes, a, b); } else { HasMoveTarget(no, a, b); }
  }

  /** A place found for a result is out of everybody's way. */
  lemma RetargetFree(ins: Instr, to: nat, more: Code, uses: Uses, targets: set<nat>, to': nat, more': Code)
    requires Wished(more, uses) && Covered(more, uses, targets)
    requires MoveTargets(more) <= targets && (to >= HIGHEST ==> Elems(Range(4, HIGHEST)) <= targets)
    requires ins.Load? ==> to <= HIGHEST
    requires (to', more') == Retarget(more, to, Good(ins, to, uses), Taken(ins, to, uses)) && to' != to
    ensures Rename(more, to, to') == Some(more')
    ensures to' < HIGHEST && to' in targets && to' !in Live(more) && to' !in ListWrites(more)
    ensures to !in Implicit(more)
  {
    assert to' in UseList(uses, to);
    assert CoveredAt(more, uses, targets, to) && CoveredAt(more, uses, targets, to');
    WishList(more, uses, to, to');
    if HasMove(more, to, to') { HasMoveTarget(more, to, to'); }
    assert to' !in uses;
    assert to in Implicit(more) ==> to in UseList(uses, to);
  }

  lemma AgreePut<V(!new)>(more: Code, to: nat, to': nat, r: Regs<V>, v: V)
    requires to' !in Live(more) && to != 0 && to' != 0
    ensures Agree(more, to, to', Put(r, to, v), Put(r, to', v))
  {
  }

  /** One result, its place, and the rest: the same wherever the result was put. */
  lemma RetargetSound<V(!new), H>(ops: Ops<V, H>, ins: Instr, to: nat, more: Code, to': nat, more': Code,
          r: Regs<V>, h: H)
    requires SafeTarget(more, to, to', more')
    ensures Run(ops, Set(ins, to', more'), r, h) == Run(ops, Set(ins, to, more), r, h)
  {
    hide Agree;
    var out := Step(ops, ins, Fetch(r, Reads(ins)), h);
    if out.Some? {
      var q, q' := Put(r, to, out.value.0), Put(r, to', out.value.0);
      AgreePut(more, to, to', r, out.value.0);
      RenameSound(ops, more, to, to', q, q', out.value.1);
    }
  }

  lemma RetargetKeeps(ins: Instr, to: nat, more: Code, to': nat, more': Code, targets: set<nat>)
    requires Rename(more, to, to') == Some(more') && to' != to && to' >= A0 && to' < HIGHEST
    requires to' !in Live(more) && to' !in ListWrites(more)
    requires Orderly(Set(ins, to, more), targets)
    ensures Orderly(Set(ins, to', more'), targets)
    ensures ListWrites(more') == ListWrites(more) && MoveTargets(more') <= MoveTargets(more)
    ensures Live(Set(ins, to, more)) <= Live(Set(ins, to', more'))
  {
    RenameOrderly(more, to, to', targets);
    forall x | x in Live(more) && x != to ensures x in Live(more') && x != to' {
      RenameLive(more, to, to', x);
    }
  }

  lemma KeepsMove(a: nat, b: nat, more: Code, more': Code, uses: Uses, targets: set<nat>)
    requires Kept(more, more', uses, targets) && Orderly(Move(a, b, more), targets) && a != b
    ensures Kept(Move(a, b, more), Move(a, b, more'), MoveUses(uses, a, b), targets)
  {
    forall x: nat ensures CoveredAt(Move(a, b, more'), MoveUses(uses, a, b), targets, x) {
      assert CoveredAt(more', uses, targets, x);
    }
  }

  lemma KeepsSet(ins: Instr, to: nat, more: Code, more': Code, uses: Uses, targets: set<nat>)
    requires Kept(more, more', uses, targets) && Orderly(Set(ins, to, more), targets)
    ensures Kept(Set(ins, to, more), Set(ins, to, more'), Touch(uses - {to}, Reads(ins)), targets)
  {
    forall x: nat ensures CoveredAt(Set(ins, to, more'), Touch(uses - {to}, Reads(ins)), targets, x) {
      assert CoveredAt(more', uses, targets, x);
    }
  }

  lemma KeepsBind(op: nat, args: seq<nat>, tos: seq<nat>, more: Code, more': Code, uses: Uses, targets: set<nat>)
    requires Kept(more, more', uses, targets) && Orderly(Bind(op, args, tos, more), targets)
    ensures Kept(Bind(op, args, tos, more), Bind(op, args, tos, more'), Touch(uses, args), targets)
  {
    forall x: nat ensures CoveredAt(Bind(op, args, tos, more'), Touch(uses, args), targets, x) {
      assert CoveredAt(more', uses, targets, x);
    }
  }

  lemma KeepsJump(cond: Cond, yes: Code, no: Code, yes': Code, a: Uses, no': Code, b: Uses, targets: set<nat>)
    requires Kept(yes, yes', a, targets) && Kept(no, no', b, targets)
    ensures Kept(Jump(cond, yes, no), Jump(cond, yes', no'), Touch(Merge(a, b), Tests(cond)), targets)
  {
    forall x: nat ensures CoveredAt(Jump(cond, yes', no'), Touch(Merge(a, b), Tests(cond)), targets, x) {
      assert CoveredAt(yes', a, targets, x) && CoveredAt(no', b, targets, x);
      assert x in a && x in a[x] && x < HIGHEST ==> x in UseList(a, x);
    }
  }

  lemma KeepsEnd(code: Code, targets: set<nat>)
    requires (code.Ret? || code.Goto?) && Orderly(code, targets)
    ensures Kept(code, code, Retard(code).value.1, targets)
  {
    forall x: nat ensures CoveredAt(code, Retard(code).value.1, targets, x) {
    }
  }

  /** A result that finds a better place is still computed to the same effect, in orderly code. */
  lemma Retargeted(ins: Instr, to: nat, more: Code, tail: Code, uses: Uses, targets: set<nat>, to': nat, more': Code)
    requires Kept(more, tail, uses, targets) && Wished(tail, uses)
    requires Orderly(Set(ins, to, more), targets) && MoveTargets(more) <= targets
    requires to >= HIGHEST ==> Elems(Range(4, HIGHEST)) <= targets
    requires forall t :: t in targets ==> t >= A0
    requires (to', more') == Retarget(tail, to, Good(ins, to, uses), Taken(ins, to, uses)) && to' != to
    ensures Orderly(Set(ins, to', more'), targets) && ListWrites(more') == ListWrites(more)
    ensures MoveTargets(more') <= MoveTargets(more) && to' < HIGHEST
    ensures Live(Set(ins, to, more)) <= Live(Set(ins, to', more'))
    ensures SafeTarget(tail, to, to', more')
  {
    RetargetFree(ins, to, tail, uses, targets, to', more');
    RetargetKeeps(ins, to, tail, to', more', targets);
  }

  predicate SafeTarget(code: Code, was: nat, target: nat, code': Code) {
    && Rename(code, was, target) == Some(code') && target != was && was != 0 && target != 0
    && target !in Live(code) && target !in ListWrites(code)
    && was !in Implicit(code) && was !in ListWrites(code)
  }

  /** Retargeted code is orderly, needs at least what the code needed, and its uses cover it. */
  lemma {:induction false} RetardKeeps(code: Code, targets: set<nat>)
    requires Retard(code).Some? && Orderly(code, targets) && Targets(code) <= targets
    requires forall t :: t in targets ==> t >= A0
    ensures Kept(code, Retard(code).value.0, Retard(code).value.1, targets)
    decreases High(code), Moves(code), code, 1
  {
    match code
    case Ret(_) => KeepsEnd(code, targets);
    case Goto(_, _) => KeepsEnd(code, targets);
    case Move(a, b, more) =>
      RetardKeeps(more, targets);
      if a != b {
        KeepsMove(a, b, more, Retard(more).value.0, Retard(more).value.1, targets);
      }
    case Set(ins, to, more) =>
      RetardKeepsSet(ins, to, more, targets);
    case Bind(op, args, tos, more) =>
      RetardKeeps(more, targets);
      KeepsBind(op, args, tos, more, Retard(more).value.0, Retard(more).value.1, targets);
    case Jump(cond, yes, no) =>
      RetardKeeps(yes, targets);
      RetardKeeps(no, targets);
      KeepsJump(cond, yes, no, Retard(yes).value.0, Retard(yes).value.1, Retard(no).value.0, Retard(no).value.1,
                targets);
  }

  lemma {:induction false} RetardSound<V(!new), H>(ops: Ops<V, H>, code: Code, targets: set<nat>, r: Regs<V>, h: H)
    requires Retard(code).Some? && Orderly(code, targets) && Targets(code) <= targets
    requires forall t :: t in targets ==> t >= A0
    ensures Run(ops, Retard(code).value.0, r, h) == Run(ops, code, r, h)
    decreases High(code), Moves(code), code, 1
  {
    match code
    case Ret(_) =>
    case Goto(_, _) =>
    case Move(a, b, more) =>
      RetardSound(ops, more, targets, Put(r, b, r(a)), h);
      if a == b {
        RetardSound(ops, more, targets, r, h);
        LiveDecides(ops, more, r, Put(r, b, r(a)), h);
      }
    case Set(ins, to, more) =>
      RetardSoundSet(ops, ins, to, more, targets, r, h);
    case Bind(op, args, tos, more) =>
      var out := ops.bind(op, |tos|, Fetch(r, args), h);
      if out.Some? && |out.value.0| == |tos| {
        RetardSound(ops, more, targets, PutAll(r, tos, out.value.0), out.value.1);
      }
    case Jump(cond, yes, no) =>
      RetardSound(ops, yes, targets, r, h);
      RetardSound(ops, no, targets, r, h);
  }

  lemma {:induction false} RetardKeepsSet(ins: Instr, to: nat, more: Code, targets: set<nat>)
    requires Retard(Set(ins, to, more)).Some? && Orderly(Set(ins, to, more), targets)
          && Targets(Set(ins, to, more)) <= targets
    requires forall t :: t in targets ==> t >= A0
    ensures Kept(Set(ins, to, more), Retard(Set(ins, to, more)).value.0, Retard(Set(ins, to, more)).value.1, targets)
    decreases High(Set(ins, to, more)), Moves(Set(ins, to, more)), Set(ins, to, more), 0
  {
    hide Retard;
    var tail, uses, to', more' := RetardSet(ins, to, more);
    RetardKeeps(more, targets);
    KeepsSet(ins, to, more, tail, uses, targets);
    if to' != to {
      Retargeted(ins, to, more, tail, uses, targets, to', more');
      RetardKeeps(Set(ins, to', more'), targets);
    }
  }

  lemma {:induction false} RetardSoundSet<V(!new), H>(ops: Ops<V, H>, ins: Instr, to: nat, more: Code,
          targets: set<nat>, r: Regs<V>, h: H)
    requires Retard(Set(ins, to, more)).Some? && Orderly(Set(ins, to, more), targets)
          && Targets(Set(ins, to, more)) <= targets
    requires forall t :: t in targets ==> t >= A0
    ensures Run(ops, Retard(Set(ins, to, more)).value.0, r, h) == Run(ops, Set(ins, to, more), r, h)
    decreases High(Set(ins, to, more)), Moves(Set(ins, to, more)), Set(ins, to, more), 0
  {
    hide Retard;
    var tail, uses, to', more' := RetardSet(ins, to, more);
    var out := Step(ops, ins, Fetch(r, Reads(ins)), h);
    if out.Some? {
      RetardSound(ops, more, targets, Put(r, to, out.value.0), out.value.1);
    }
    if to' != to {
      RetardKeeps(more, targets);
      Retargeted(ins, to, more, tail, uses, targets, to', more');
      RetargetSound(ops, ins, to, tail, to', more', r, h);
      RetardSound(ops, Set(ins, to', more'), targets, r, h);
    }
  }

  function AllocateRegisters(code: Code): Option<Code> {
    var r := Retard(code);
    if r.None? then None else Some(r.value.0)
  }

  lemma {:induction false} OrderlyTargets(code: Code, targets: set<nat>)
    requires Orderly(code, targets)
    ensures forall t :: t in MoveTargets(code) ==> t >= A0
  {
    match code
    case Ret(_) =>
    case Goto(_, _) =>
    case Move(_, _, more) => OrderlyTargets(more, targets);
    case Set(_, _, more) => OrderlyTargets(more, targets);
    case Bind(_, _, _, more) => OrderlyTargets(more, targets);
    case Jump(_, yes, no) =>
      OrderlyTargets(yes, targets);
      OrderlyTargets(no, targets);
  }

  /** Register allocation keeps the meaning of orderly code: the same return or call, with the same
      values, from every state of the registers and the heap, whatever the instructions do. */
  lemma AllocationSound<V(!new), H>(ops: Ops<V, H>, code: Code, r: Regs<V>, h: H)
    requires AllocateRegisters(code).Some? && Orderly(code, Targets(code))
    ensures Run(ops, AllocateRegisters(code).value, r, h) == Run(ops, code, r, h)
  {
    OrderlyTargets(code, Targets(code));
    RetardSound(ops, code, Targets(code), r, h);
  }

  // ---- Where it does not ----

  lemma RetardReturn(b: nat)
    requires A0 < b < HIGHEST
    ensures Retard(Ret(b)) == Some((Ret(b), map[A0 := [A0], b := []]))
  {
    assert Touch(Root([A0]), [b]) == map[A0 := [A0], b := []];
  }

  lemma RetardMove(a: nat, b: nat)
    requires A0 < b < HIGHEST && A0 < a < HIGHEST && a != b
    ensures Retard(Move(a, b, Ret(b))) == Some((Move(a, b, Ret(b)), map[A0 := [A0], a := [b]]))
  {
    RetardReturn(b);
    var uses: Uses, less: Uses := map[A0 := [A0], b := []], map[A0 := [A0]];
    assert uses - {b} == less;
    assert UseList(less, a) == [];
    assert [b] + [] == [b];
    assert less[a := [b]] == map[A0 := [A0], a := [b]];
  }

  lemma TouchNothing(uses: Uses)
    requires A0 in uses
    ensures Touch(uses, [A0, A0]) == uses
  {
  }

  lemma RetardDead(op: nat, a: nat, b: nat, c: nat)
    requires A0 < a < HIGHEST && A0 < b < HIGHEST && a != b
    ensures var tail := Bind(op, [A0, A0], [b, c], Move(a, b, Ret(b)));
            Retard(tail) == Some((tail, map[A0 := [A0], a := [b]]))
  {
    RetardMove(a, b);
    TouchNothing(map[A0 := [A0], a := [b]]);
  }

  lemma AllocateDead(op: nat, n: int, a: nat, b: nat, c: nat)
    requires A0 < a < HIGHEST && A0 < b < HIGHEST && A0 < c && a != b && c != a && c != b
    ensures AllocateRegisters(Set(Load(Small(n)), a, Bind(op, [A0, A0], [b, c], Move(a, b, Ret(b)))))
         == AllocateRegisters(Set(Load(Small(n)), b, Bind(op, [A0, A0], [b, c], Ret(b))))
  {
    var args, tos := [A0, A0], [b, c];
    var tail, tail' := Bind(op, args, tos, Move(a, b, Ret(b))), Bind(op, args, tos, Ret(b));
    var uses: Uses := map[A0 := [A0], a := [b]];
    RetardDead(op, a, b, c);
    assert uses[a] == [b] && Lower([b]) == [b];
    assert RenamedAll(args, a, b) == args;
    assert Rename(Move(a, b, Ret(b)), a, b) == Some(Ret(b));
    assert Rename(tail, a, b) == Some(tail');
    assert Retarget(tail, a, [b], uses) == (b, tail');
  }

  lemma AllocateSettled(op: nat, n: int, b: nat, c: nat)
    requires A0 < b < HIGHEST && A0 < c && c != b
    ensures var code := Set(Load(Small(n)), b, Bind(op, [A0, A0], [b, c], Ret(b)));
            AllocateRegisters(code) == Some(code)
  {
    var uses: Uses := map[A0 := [A0], b := []];
    RetardReturn(b);
    TouchNothing(uses);
    assert Retard(Bind(op, [A0, A0], [b, c], Ret(b))) == Some((Bind(op, [A0, A0], [b, c], Ret(b)), uses));
    assert UseList(uses, b) == [];
  }

  lemma PutTwo<V>(r: Regs<V>, b: nat, c: nat, vs: seq<V>)
    requires c != b && |vs| == 2
    ensures PutAll(r, [b, c], vs)(b) == vs[0]
    ensures forall x: nat :: x != b && x != c ==> PutAll(r, [b, c], vs)(x) == r(x)
  {
    var tos := [b, c];
    assert tos[1..] == [c] && [c][1..] == [];
    assert PutAll(r, tos, vs) == PutAll(Put(r, b, vs[0]), [c], vs[1..]) == Put(Put(r, b, vs[0]), c, vs[1]);
  }

  lemma RunEnd<V, H>(ops: Ops<V, H>, n: int, a: nat, op: nat, b: nat, c: nat, end: Code, r: Regs<V>, h: H,
          vs: seq<V>, h': H)
    requires a > A0 && b != c && |vs| == 2
    requires ops.bind(op, 2, [r(A0), r(A0)], h) == Some((vs, h'))
    ensures Run(ops, Set(Load(Small(n)), a, Bind(op, [A0, A0], [b, c], end)), r, h)
         == Run(ops, end, PutAll(Put(r, a, ops.constant(Small(n))), [b, c], vs), h')
  {
    var q := Put(r, a, ops.constant(Small(n)));
    assert Fetch(q, [A0, A0]) == [r(A0), r(A0)];
  }

  /** A value put into a register that a later list of results also writes is lost when nobody
      wants that result: here n is moved to b only after a list of results has been put there. */
  lemma DeadResultClobbers<V, H>(ops: Ops<V, H>, op: nat, n: int, a: nat, b: nat, c: nat, r: Regs<V>, h: H,
          vs: seq<V>, h': H)
    requires A0 < a < HIGHEST && A0 < b < HIGHEST && A0 < c && a != b && c != a && c != b
    requires ops.bind(op, 2, [r(A0), r(A0)], h) == Some((vs, h')) && |vs| == 2
    ensures var code := Set(Load(Small(n)), a, Bind(op, [A0, A0], [b, c], Move(a, b, Ret(b))));
            && Run(ops, code, r, h) == Returned(r(A0), ops.constant(Small(n)), h')
            && AllocateRegisters(code).Some?
            && Run(ops, AllocateRegisters(code).value, r, h) == Returned(r(A0), vs[0], h')
  {
    AllocateDead(op, n, a, b, c);
    AllocateSettled(op, n, b, c);
    RunEnd(ops, n, a, op, b, c, Move(a, b, Ret(b)), r, h, vs, h');
    RunEnd(ops, n, b, op, b, c, Ret(b), r, h, vs, h');
    PutTwo(Put(r, a, ops.constant(Small(n))), b, c, vs);
    PutTwo(Put(r, b, ops.constant(Small(n))), b, c, vs);
  }
}
