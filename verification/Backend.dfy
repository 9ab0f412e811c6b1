/** Register allocation followed by assembly: from register code to what the machine does. */
module Backend {
  import opened Rtl
  import opened Vm
  import opened Registers
  import opened Assembler
  import opened Wrappers

  lemma {:induction false} RenameRegular(code: Code, was: nat, target: nat)
    requires Rename(code, was, target).Some? && Regular(code)
    ensures Regular(Rename(code, was, target).value)
  {
    match code
    case Ret(_) =>
    case Goto(_, _) =>
    case Move(_, _, more) => RenameRegular(more, was, target);
    case Set(_, _, more) => RenameRegular(more, was, target);
    case Bind(_, _, _, more) => RenameRegular(more, was, target);
    case Jump(_, yes, no) =>
      RenameRegular(yes, was, target);
      RenameRegular(no, was, target);
  }

  lemma {:induction false} RetardRegular(code: Code)
    requires Retard(code).Some? && Regular(code)
    ensures Regular(Retard(code).value.0)
    decreases High(code), Moves(code), code
  {
    match code
    case Ret(_) =>
    case Goto(_, _) =>
    case Move(_, _, more) => RetardRegular(more);
    case Set(ins, to, more) =>
      RetardRegular(more);
      var tail, uses, to', more' := RetardSet(ins, to, more);
      if to' != to {
        RenameRegular(tail, to, to');
        RetardRegular(Set(ins, to', more'));
      }
    case Bind(_, _, _, more) => RetardRegular(more);
    case Jump(_, yes, no) =>
      RetardRegular(yes);
      RetardRegular(no);
  }

  /** Allocated and assembled code, run by the machine, does what the register code says. */
  lemma CompiledRuns<V(!new), H>(ops: Ops<V, H>, code: Code, rest: seq<Byte>, r: Regs<V>, h: H)
    requires Orderly(code, Targets(code)) && Regular(code) && LowMoves(code)
    requires AllocateRegisters(code).Some? ==>
               var code' := AllocateRegisters(code).value; Checked(code') && ShortJumps(code') && InRange(code')
    ensures AllocateRegisters(code).Some? && Assemble(AllocateRegisters(code).value).Some?
    ensures VmRun(ops, Bytes(Assemble(AllocateRegisters(code).value).value) + rest, r, h) == Some(Run(ops, code, r, h))
  {
    RetardExact(code);
    var code' := AllocateRegisters(code).value;
    RetardRegular(code);
    AssembleExact(code');
    AllocationSound(ops, code, r, h);
    AssembledRuns(ops, code', rest, r, h);
    InRangeExact(code');
  }

  // ---- What allocation keeps ----

  /** The most bytes that an instruction can take, and code without fused moves. */
  function Most(ins: Instr): nat {
    if ins.Closure? then |ins.env| + 5 else InstrLength(ins)
  }

  function Longest(code: Code): nat {
    match code
    case Ret(_) => 2
    case Goto(_, _) => 3
    case Move(_, _, more) => 3 + Longest(more)
    case Set(ins, _, more) => Most(ins) + Longest(more)
    case Bind(op, args, tos, more) => BindLength(op, args, tos) + Longest(more)
    case Jump(cond, yes, no) => CondLength(cond) + Longest(yes) + Longest(no)
  }

  /** No jump is over too much, however the moves are fused. */
  predicate Roomy(code: Code) {
    match code
    case Move(_, _, more) => Roomy(more)
    case Set(_, _, more) => Roomy(more)
    case Bind(_, _, _, more) => Roomy(more)
    case Jump(_, yes, no) => Longest(no) < 0xffff && Roomy(yes) && Roomy(no)
    case _ => true
  }

  lemma {:induction false} LengthLongest(code: Code)
    ensures Length(code) <= Longest(code) && (Roomy(code) ==> ShortJumps(code))
  {
    match code
    case Ret(_) =>
    case Goto(_, _) =>
    case Move(_, _, more) => LengthLongest(more);
    case Set(_, _, more) => LengthLongest(more);
    case Bind(_, _, _, more) => LengthLongest(more);
    case Jump(_, yes, no) =>
      LengthLongest(yes);
      LengthLongest(no);
  }

  /** Code whose instructions can be had, over short jumps. */
  predicate Fits(code: Code) {
    Checked(code) && Roomy(code)
  }

  lemma RenamedBelow(s: seq<nat>, was: nat, target: nat)
    requires (forall a :: a in s ==> a < 256) && target < 256
    ensures forall a :: a in RenamedAll(s, was, target) ==> a < 256
  {
    forall i | 0 <= i < |s| ensures RenamedAll(s, was, target)[i] < 256 {
      assert s[i] in s;
    }
  }

  lemma RenamedFits(ins: Instr, to: nat, was: nat, target: nat)
    requires InstrFits(ins, to) && target < 256
    ensures InstrFits(RenamedInstr(ins, was, target), to) && Most(RenamedInstr(ins, was, target)) == Most(ins)
  {
    assert Reads(RenamedInstr(ins, was, target)) == RenamedAll(Reads(ins), was, target);
    RenamedBelow(Reads(ins), was, target);
  }

  lemma RenamedTests(cond: Cond, was: nat, target: nat)
    requires (forall a :: a in Tests(cond) ==> a < 256) && target < 256
    ensures forall a :: a in Tests(RenamedCond(cond, was, target)) ==> a < 256
    ensures CondLength(RenamedCond(cond, was, target)) == CondLength(cond)
  {
    assert Tests(RenamedCond(cond, was, target)) == RenamedAll(Tests(cond), was, target);
    RenamedBelow(Tests(cond), was, target);
  }

  lemma RenamedList(args: seq<nat>, tos: seq<nat>, was: nat, target: nat)
    requires (forall a :: a in args + tos ==> a < 256) && target < 256
    ensures forall a :: a in RenamedAll(args, was, target) + tos ==> a < 256
  {
    forall a | a in args ensures a < 256 { assert a in args + tos; }
    RenamedBelow(args, was, target);
    forall a | a in tos ensures a < 256 { assert a in args + tos; }
  }

  lemma {:induction false} RenameFits(code: Code, was: nat, target: nat)
    requires Rename(code, was, target).Some? && Fits(code) && target < 256
    ensures Fits(Rename(code, was, target).value) && Longest(Rename(code, was, target).value) <= Longest(code)
  {
    hide InstrFits, RenamedInstr, RenamedCond, RenamedAll, Most, ArityOk;
    match code
    case Ret(_) =>
    case Goto(_, _) =>
    case Move(_, _, more) => RenameFits(more, was, target);
    case Set(ins, to, more) =>
      RenamedFits(ins, to, was, target);
      RenameFits(more, was, target);
    case Bind(_, args, tos, more) =>
      RenamedList(args, tos, was, target);
      RenameFits(more, was, target);
    case Jump(cond, yes, no) =>
      RenamedTests(cond, was, target);
      RenameFits(yes, was, target);
      RenameFits(no, was, target);
  }

  /** Registers are only exchanged for lower ones, and nothing gets longer. */
  lemma {:induction false} AllocationFits(code: Code)
    requires Retard(code).Some? && Fits(code)
    ensures Fits(Retard(code).value.0) && Longest(Retard(code).value.0) <= Longest(code)
    decreases High(code), Moves(code), code, 1
  {
    match code
    case Ret(_) =>
    case Goto(_, _) =>
    case Move(_, _, more) => AllocationFits(more);
    case Set(ins, to, more) =>
      hide *;
      SetFits(ins, to, more);
    case Bind(_, _, _, more) => AllocationFits(more);
    case Jump(_, yes, no) =>
      AllocationFits(yes);
      AllocationFits(no);
  }

  lemma {:induction false} SetFits(ins: Instr, to: nat, more: Code)
    requires Retard(Set(ins, to, more)).Some? && Fits(Set(ins, to, more))
    ensures var code' := Retard(Set(ins, to, more)).value.0;
            Fits(code') && Longest(code') <= Longest(Set(ins, to, more))
    decreases High(Set(ins, to, more)), Moves(Set(ins, to, more)), Set(ins, to, more), 0
  {
    hide Retard, InstrFits, Most;
    var tail, uses, to', more' := RetardSet(ins, to, more);
    AllocationFits(more);
    if to' != to {
      RenameFits(tail, to, to');
      LowerFits(ins, to, to');
      AllocationFits(Set(ins, to', more'));
    }
  }

  lemma LowerFits(ins: Instr, to: nat, to': nat)
    requires InstrFits(ins, to) && to' < 256
    ensures InstrFits(ins, to')
  {
  }

  lemma {:induction false} RenameInRange(code: Code, was: nat, target: nat)
    requires Rename(code, was, target).Some? && InRange(code) && target < 256
    ensures InRange(Rename(code, was, target).value)
  {
    match code
    case Ret(_) =>
    case Goto(_, _) =>
    case Move(_, _, more) => RenameInRange(more, was, target);
    case Set(_, _, more) => RenameInRange(more, was, target);
    case Bind(_, _, _, more) => RenameInRange(more, was, target);
    case Jump(_, yes, no) =>
      RenameInRange(yes, was, target);
      RenameInRange(no, was, target);
  }

  /** Results are only moved to registers below the highest one, so what fits its bytes still does. */
  lemma {:induction false} AllocationInRange(code: Code)
    requires Retard(code).Some? && InRange(code)
    ensures InRange(Retard(code).value.0)
    decreases High(code), Moves(code), code
  {
    match code
    case Ret(_) =>
    case Goto(_, _) =>
    case Move(_, _, more) => AllocationInRange(more);
    case Set(ins, to, more) =>
      AllocationInRange(more);
      var tail, uses, to', more' := RetardSet(ins, to, more);
      if to' != to {
        RenameInRange(tail, to, to');
        AllocationInRange(Set(ins, to', more'));
      }
    case Bind(_, _, _, more) => AllocationInRange(more);
    case Jump(_, yes, no) =>
      AllocationInRange(yes);
      AllocationInRange(no);
  }

  lemma {:induction false} CheckedLow(code: Code)
    requires Checked(code)
    ensures LowMoves(code)
  {
    match code
    case Ret(_) =>
    case Goto(_, _) =>
    case Move(_, _, more) => CheckedLow(more);
    case Set(_, _, more) => CheckedLow(more);
    case Bind(_, _, _, more) => CheckedLow(more);
    case Jump(_, yes, no) =>
      CheckedLow(yes);
      CheckedLow(no);
  }

  /** So all that is asked for can be asked of the register code itself: it is allocated, assembled, and run to the same
      end. */
  lemma InRangeRuns<V(!new), H>(ops: Ops<V, H>, code: Code, rest: seq<Byte>, r: Regs<V>, h: H)
    requires Orderly(code, Targets(code)) && Regular(code) && InRange(code) && Fits(code)
    ensures AllocateRegisters(code).Some? && Assemble(AllocateRegisters(code).value).Some?
    ensures VmRun(ops, Bytes(Assemble(AllocateRegisters(code).value).value) + rest, r, h) == Some(Run(ops, code, r, h))
  {
    CheckedLow(code);
    RetardExact(code);
    AllocationFits(code);
    AllocationInRange(code);
    LengthLongest(AllocateRegisters(code).value);
    CompiledRuns(ops, code, rest, r, h);
  }
}
