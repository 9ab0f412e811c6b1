/** From register code to bytes, and what the virtual machine makes of them. */
module Assembler {
  import opened Rtl
  import opened Vm
  import opened Wrappers

  const NREGISTERS := 256

  const MOVE2 := 5
  const LDE := 13
  const LDN := 77
  const LDT := 141
  const LDF := 205
  const JZ := 16
  const JN := 80
  const JE := 144
  const JF := 208
  const CLOS0 := 3
  const CLOC0 := 4
  const CLOS1 := 6
  const CLOC1 := 7

  /** The compiler's own table: inputs, and outputs unless their number is free. */
  function Arity(op: nat): Option<(nat, Option<nat>)> {
    match op
    case 28 | 29 | 30 | 31 | 62 => Some((0, Some(1)))
    case 61 => Some((0, Some(2)))
    case 15 | 36 | 37 | 41 | 46 | 48 | 52 | 53 => Some((1, Some(1)))
    case 32 | 49 => Some((1, None))
    case 22 | 33 | 35 | 44 | 47 | 51 => Some((2, Some(1)))
    case 54 | 55 | 56 | 57 | 60 => Some((2, Some(1)))
    case 38 | 39 | 40 | 58 | 59 => Some((2, Some(2)))
    case 10 | 34 | 45 => Some((3, Some(1)))
    case 26 => Some((3, Some(3)))
    case 42 | 43 | 63 => Some((4, Some(1)))
    case _ => None
  }

  predicate ArityOk(op: nat, ins: nat, outs: nat) {
    var node := Arity(op);
    node.None? || (ins == node.value.0 && (node.value.1.None? || outs == node.value.1.value))
  }

  /** The instructions that are not told how many results they have. */
  predicate FixedOutputs(op: nat) {
    op in {49, 38, 39, 40, 26, 58, 59, 61}
  }

  predicate AllRegs(s: seq<nat>) {
    forall a :: a in s ==> a < NREGISTERS
  }

  /** output-code: the opcode and what is packed above its byte, highest byte first. */
  function OutputCode(op: nat, lst: seq<nat>): seq<nat> {
    if op < 256 then [op] + lst else OutputCode(op / 256, [op % 256] + lst)
  }

  function AssembleInstr(ins: Instr, to: nat): Option<seq<nat>> {
    match ins
    case Prim(op, args) =>
      if op > 255 then
        if args == [] || !AllRegs(args) || |args| > NREGISTERS || to >= NREGISTERS then None
        else Some(OutputCode(op, [|args| - 1] + args + [to]))
      else if op == VMNEW then
        if !AllRegs(args) || to >= NREGISTERS then None else Some([op, |args|] + args + [to])
      else if ArityOk(op, |args|, 1) then
        if !AllRegs(args) then None else Some([op] + args + [to])
      else None
    case Closure(whole, lp, off, env) =>
      if !AllRegs([lp] + env) || to >= NREGISTERS then None
      else if lp == 1 then Some([if whole then CLOS1 else CLOC1, 2 + |env|, off] + env + [to])
      else Some([if whole then CLOS0 else CLOC0, 2 + |env|, lp, off] + env + [to])
    case Load(val) =>
      if to >= NREGISTERS then None
      else (
        match val
        case Null => Some([LDN, to])
        case False => Some([LDF, to])
        case True => Some([LDT, to])
        case Empty => Some([LDE, to])
        case Small(n) => if n > 126 || n < -126 then None else Some([LD, if n < 0 then 256 + n else n, to])
      )
    case Refer(from, pos) =>
      if from >= NREGISTERS || to >= NREGISTERS then None else Some([REFI, from, pos, to])
  }

  function AssembleBind(op: nat, args: seq<nat>, tos: seq<nat>): Option<seq<nat>> {
    if op > 255 || op == VMNEW || !ArityOk(op, |args|, |tos|) || !AllRegs(args) || !AllRegs(tos) then None
    else if FixedOutputs(op) then Some([op] + args + tos)
    else Some([op] + args + [|tos|] + tos)
  }

  /** A conditional jump over len bytes. */
  function AssembleCond(cond: Cond, len: nat): Option<seq<nat>> {
    if !AllRegs(Tests(cond)) || len >= 0xffff then None
    else
      var offset := [len % 256, len / 256];
      match cond
      case Same(a, b) => Some([JEQ, a, b] + offset)
      case IsZero(a) => Some([JZ, a] + offset)
      case IsNull(a) => Some([JN, a] + offset)
      case IsEmpty(a) => Some([JE, a] + offset)
      case IsFalse(a) => Some([JF, a] + offset)
  }

  function Then(a: Option<seq<nat>>, b: Option<seq<nat>>): Option<seq<nat>> {
    if a.Some? && b.Some? then Some(a.value + b.value) else None
  }

  /** assemble: None stands for its failure exit.  Two moves in a row are fused. */
  function Assemble(code: Code): Option<seq<nat>> {
    match code
    case Ret(a) => if a < NREGISTERS then Some([RET, a]) else None
    case Goto(fn, nargs) => if fn < NREGISTERS then Some([GOTO, fn, nargs]) else None
    case Move(a, b, more) =>
      var tl := Assemble(more);
      if tl.None? || tl.value == [] || a >= NREGISTERS || b >= NREGISTERS then None
      else if tl.value[0] == MOVE then Some([MOVE2, a, b] + tl.value[1..])
      else Some([MOVE, a, b] + tl.value)
    case Set(ins, to, more) => Then(AssembleInstr(ins, to), Assemble(more))
    case Bind(op, args, tos, more) => Then(AssembleBind(op, args, tos), Assemble(more))
    case Jump(cond, yes, no) =>
      var y, n := Assemble(yes), Assemble(no);
      if y.None? || n.None? then None
      else Then(AssembleCond(cond, |n.value|), Some(n.value + y.value))
  }

  /** A bytecode object keeps the low byte of each number. */
  function Bytes(s: seq<nat>): (bs: seq<Byte>)
    ensures |bs| == |s|
    ensures forall i :: 0 <= i < |s| ==> bs[i] == s[i] % 256
  {
    seq(|s|, i requires 0 <= i < |s| => s[i] % 256)
  }

  // ---- What the bytes mean ----

  /** The instruction as its bytes will be read: numbers that do not fit lose their high bits, and
      negative loads come out positive. */
  function TruncatedInstr(ins: Instr): Instr {
    match ins
    case Closure(whole, lp, off, env) => Closure(whole, lp, off % 256, env)
    case Load(Small(n)) => Load(Small(n % 256))
    case Refer(from, pos) => Refer(from, pos % 256)
    case _ => ins
  }

  function Truncated(code: Code): Code {
    match code
    case Ret(_) => code
    case Goto(fn, nargs) => Goto(fn, nargs % 256)
    case Move(a, b, more) => Move(a, b, Truncated(more))
    case Set(ins, to, more) => Set(TruncatedInstr(ins), to % 256, Truncated(more))
    case Bind(op, args, tos, more) => Bind(op, args, tos, Truncated(more))
    case Jump(cond, yes, no) => Jump(cond, Truncated(yes), Truncated(no))
  }

  /** Code whose instructions exist, in the shapes the compiler gives them: a primitive with one
      result or one of those with several, an object of at least one field and a type of one byte,
      and no closure or binding too long for its count. */
  predicate Regular(code: Code) {
    match code
    case Ret(_) => true
    case Goto(_, _) => true
    case Move(_, _, more) => Regular(more)
    case Set(Prim(op, _), _, more) =>
      && (if op > 255 then op / 256 == VMNEW else Arity(op).Some? && op != TUPLEAPPLY && op != 49)
      && Regular(more)
    case Set(Closure(_, _, _, env), _, more) => |env| <= 253 && Regular(more)
    case Set(_, _, more) => Regular(more)
    case Bind(op, _, tos, more) =>
      && (op == TUPLEAPPLY ==> |tos| < 256) && (op == 49 ==> |tos| == 4)
      && (op == TUPLEAPPLY || FixedOutputs(op))
      && Regular(more)
    case Jump(_, yes, no) => Regular(yes) && Regular(no)
  }

  /** The compiler's table of primitives and the machine's instructions agree on what there is and what it takes.  For
      ff-apply the table leaves open how many results there are, and the machine writes four; for tuple-apply the code
      itself tells. */
  lemma TablesAgree(op: nat, ins: nat, outs: nat)
    ensures Arity(op).Some? <==> Layout(op).Some? || op == TUPLEAPPLY
    ensures Arity(op).Some? && op != TUPLEAPPLY ==>
              (Layout(op) == Some((ins, outs)) <==> ArityOk(op, ins, outs) && (op == 49 ==> outs == 4))
    ensures op == TUPLEAPPLY ==> (ArityOk(op, ins, outs) <==> ins == 1)
    ensures Arity(op).Some? && outs == 1 && op != 49 ==> !(ArityOk(op, ins, outs) && FixedOutputs(op))
    ensures FixedOutputs(op) <==> Layout(op).Some? && Layout(op).value.1 != 1
  {
  }

  lemma BytesJoin(a: seq<nat>, b: seq<nat>)
    ensures Bytes(a + b) == Bytes(a) + Bytes(b)
  {
  }

  /** Register numbers survive as bytes. */
  lemma RegBytes(regs: seq<nat>)
    requires AllRegs(regs)
    ensures Bytes(regs) == regs
  {
    forall i | 0 <= i < |regs| ensures Bytes(regs)[i] == regs[i] {
      assert regs[i] in regs;
    }
  }

  /** Operand registers, one more byte, and what follows. */
  lemma Operands<V>(r: Regs<V>, args: seq<nat>, last: nat, tail: seq<Byte>)
    requires AllRegs(args)
    ensures var bs := Bytes(args + [last]) + tail;
            && |bs| == |args| + 1 + |tail|
            && Fetch(r, bs[..|args|]) == Fetch(r, args)
            && bs[|args|] == last % 256
            && bs[|args| + 1..] == tail
  {
    var bs := Bytes(args + [last]) + tail;
    RegBytes(args);
    assert bs[..|args|] == Bytes(args);
  }

  /** What one instruction does before the bytes that follow it. */
  function After<V, H>(ops: Ops<V, H>, ins: Instr, to: nat, tail: seq<Byte>, r: Regs<V>, h: H): Option<Outcome<V, H>> {
    var vals := Fetch(r, Reads(ins));
    var out := Step(ops, ins, vals, h);
    if out.Some? then VmRun(ops, tail, Put(r, to, out.value.0), out.value.1)
    else Some(Failed(r(0), OpcodeOf(ins), vals, h))
  }

  lemma VmPrimStep<V, H>(ops: Ops<V, H>, bs: seq<Byte>, n: nat, r: Regs<V>, h: H)
    requires bs != [] && bs[0] < 64 && Layout(bs[0]) == Some((n, 1))
    ensures VmRun(ops, bs, r, h) == VmPrim(ops, bs[1..], bs[0], n, r, h)
  {
    VmComputeStep(ops, bs, r, h);
  }

  lemma VmComputeStep<V, H>(ops: Ops<V, H>, bs: seq<Byte>, r: Regs<V>, h: H)
    requires bs != [] && bs[0] < 64 && (bs[0] in {3, 4, 6, 7, VMNEW, TUPLEAPPLY} || Layout(bs[0]).Some?)
    ensures VmRun(ops, bs, r, h) == VmCompute(ops, bs, bs[0], r, h)
  {
    hide VmCompute;
  }

  lemma VmNewStep<V, H>(ops: Ops<V, H>, bs: seq<Byte>, r: Regs<V>, h: H)
    requires |bs| >= 3 && bs[0] == VMNEW
    ensures VmRun(ops, bs, r, h) == VmPrim(ops, bs[3..], Wide(bs[1], VMNEW), Next(bs[2]), r, h)
  {
    VmComputeStep(ops, bs, r, h);
  }

  lemma VmCloseStep<V, H>(ops: Ops<V, H>, bs: seq<Byte>, r: Regs<V>, h: H)
    requires |bs| >= 4 && bs[0] in {3, 4, 6, 7} && bs[1] >= 2
    ensures bs[0] == 3 || bs[0] == 4 ==>
              VmRun(ops, bs, r, h) == VmClose(ops, bs[4..], bs[0] == 3, Spare(bs[1]), r(bs[2]), bs[3], r, h)
    ensures bs[0] == 6 || bs[0] == 7 ==>
              VmRun(ops, bs, r, h) == VmClose(ops, bs[3..], bs[0] == 6, Spare(bs[1]), r(1), bs[2], r, h)
  {
    VmComputeStep(ops, bs, r, h);
  }

  lemma PrimAfter<V, H>(ops: Ops<V, H>, op: nat, args: seq<nat>, to: nat, tail: seq<Byte>, r: Regs<V>, h: H)
    requires AllRegs(args)
    ensures VmPrim(ops, Bytes(args + [to]) + tail, op, |args|, r, h) == After(ops, Prim(op, args), to % 256, tail, r, h)
  {
    hide VmRun;
    Operands(r, args, to, tail);
  }

  lemma CloseAfter<V, H>(ops: Ops<V, H>, whole: bool, lp: nat, off: nat, env: seq<nat>, to: nat, tail: seq<Byte>,
          r: Regs<V>, h: H)
    requires AllRegs(env)
    ensures VmClose(ops, Bytes(env + [to]) + tail, whole, |env|, r(lp), off, r, h)
         == After(ops, Closure(whole, lp, off, env), to % 256, tail, r, h)
  {
    hide VmRun;
    Operands(r, env, to, tail);
    var vals := Fetch(r, Reads(Closure(whole, lp, off, env)));
    assert vals[1..] == Fetch(r, env) && vals[0] == r(lp);
  }

  /** Fixed bytes, operands, and what follows. */
  lemma Prefixed(head: seq<nat>, body: seq<nat>, tail: seq<Byte>)
    ensures var bs := Bytes(head + body) + tail;
            && |bs| == |head| + |body| + |tail|
            && (forall i :: 0 <= i < |head| ==> bs[i] == head[i] % 256)
            && bs[|head|..] == Bytes(body) + tail
  {
    BytesJoin(head, body);
  }

  lemma PrimBytes(op: nat, args: seq<nat>, to: nat)
    requires AssembleInstr(Prim(op, args), to).Some? && Regular(Set(Prim(op, args), to, Ret(0))) && op <= 255
    ensures AssembleInstr(Prim(op, args), to).value == [op] + (args + [to])
    ensures AllRegs(args) && op < 64 && Layout(op).Some? && Layout(op).value == (|args|, 1)
  {
    TablesAgree(op, |args|, 1);
    assert [op] + args + [to] == [op] + (args + [to]);
  }

  lemma PrimRuns<V, H>(ops: Ops<V, H>, op: nat, args: seq<nat>, to: nat, tail: seq<Byte>, r: Regs<V>, h: H)
    requires AssembleInstr(Prim(op, args), to).Some? && Regular(Set(Prim(op, args), to, Ret(0))) && op <= 255
    ensures VmRun(ops, Bytes(AssembleInstr(Prim(op, args), to).value) + tail, r, h)
         == After(ops, Prim(op, args), to % 256, tail, r, h)
  {
    hide VmRun, After, VmPrim, Bytes, AssembleInstr, Layout;
    PrimBytes(op, args, to);
    Prefixed([op], args + [to], tail);
    VmPrimStep(ops, Bytes([op] + (args + [to])) + tail, |args|, r, h);
    PrimAfter(ops, op, args, to, tail, r, h);
  }

  lemma OutputNew(op: nat, args: seq<nat>, to: nat)
    requires op > 255 && op / 256 == VMNEW && args != []
    ensures OutputCode(op, [|args| - 1] + args + [to]) == [VMNEW, op % 256, |args| - 1] + (args + [to])
  {
    var lst := [|args| - 1] + args + [to];
    assert OutputCode(VMNEW, [op % 256] + lst) == [VMNEW] + ([op % 256] + lst);
  }

  lemma NewRuns<V, H>(ops: Ops<V, H>, op: nat, args: seq<nat>, to: nat, tail: seq<Byte>, r: Regs<V>, h: H)
    requires AssembleInstr(Prim(op, args), to).Some? && op > 255 && op / 256 == VMNEW
    ensures VmRun(ops, Bytes(AssembleInstr(Prim(op, args), to).value) + tail, r, h)
         == After(ops, Prim(op, args), to % 256, tail, r, h)
  {
    hide VmRun, After;
    OutputNew(op, args, to);
    var head := [VMNEW, op % 256, |args| - 1];
    Prefixed(head, args + [to], tail);
    VmNewStep(ops, Bytes(head + (args + [to])) + tail, r, h);
    PrimAfter(ops, op, args, to, tail, r, h);
  }

  function CloseHead(whole: bool, lp: nat, off: nat, n: nat): seq<nat> {
    if lp == 1 then [if whole then CLOS1 else CLOC1, 2 + n, off]
    else [if whole then CLOS0 else CLOC0, 2 + n, lp, off]
  }

  lemma CloseBytes(whole: bool, lp: nat, off: nat, env: seq<nat>, to: nat)
    requires AssembleInstr(Closure(whole, lp, off, env), to).Some?
    ensures AssembleInstr(Closure(whole, lp, off, env), to).value == CloseHead(whole, lp, off, |env|) + (env + [to])
    ensures AllRegs(env) && lp < NREGISTERS
  {
    assert AllRegs(env) by {
      forall a | a in env ensures a < NREGISTERS { assert a in [lp] + env; }
    }
    assert lp in [lp] + env;
    var head := CloseHead(whole, lp, off, |env|);
    assert head + env + [to] == head + (env + [to]);
  }

  lemma ClosureRuns<V, H>(ops: Ops<V, H>, whole: bool, lp: nat, off: nat, env: seq<nat>, to: nat, tail: seq<Byte>,
          r: Regs<V>, h: H)
    requires AssembleInstr(Closure(whole, lp, off, env), to).Some? && |env| <= 253
    ensures VmRun(ops, Bytes(AssembleInstr(Closure(whole, lp, off, env), to).value) + tail, r, h)
         == After(ops, Closure(whole, lp, off % 256, env), to % 256, tail, r, h)
  {
    hide VmRun, After, VmClose, Bytes, AssembleInstr;
    CloseBytes(whole, lp, off, env, to);
    var head := CloseHead(whole, lp, off, |env|);
    Prefixed(head, env + [to], tail);
    VmCloseStep(ops, Bytes(head + (env + [to])) + tail, r, h);
    CloseAfter(ops, whole, lp, off % 256, env, to, tail, r, h);
  }

  lemma InstrRuns<V, H>(ops: Ops<V, H>, ins: Instr, to: nat, tail: seq<Byte>, r: Regs<V>, h: H)
    requires AssembleInstr(ins, to).Some? && Regular(Set(ins, to, Ret(0)))
    ensures VmRun(ops, Bytes(AssembleInstr(ins, to).value) + tail, r, h)
         == After(ops, TruncatedInstr(ins), to % 256, tail, r, h)
  {
    hide VmRun, After;
    match ins
    case Prim(op, args) =>
      if op > 255 { NewRuns(ops, op, args, to, tail, r, h); } else { PrimRuns(ops, op, args, to, tail, r, h); }
    case Closure(whole, lp, off, env) => ClosureRuns(ops, whole, lp, off, env, to, tail, r, h);
    case Load(val) => LoadRuns(ops, val, to, tail, r, h);
    case Refer(from, pos) => ReferRuns(ops, from, pos, to, tail, r, h);
  }

  lemma VmStoreStep<V, H>(ops: Ops<V, H>, bs: seq<Byte>, r: Regs<V>, h: H)
    requires bs != [] && bs[0] % 64 in {MOVE, MOV2, LDI, LD, REFI}
    ensures VmRun(ops, bs, r, h) == VmStore(ops, bs, bs[0] % 64, bs[0] / 64, r, h)
  {
  }

  lemma LoadRuns<V, H>(ops: Ops<V, H>, val: Const, to: nat, tail: seq<Byte>, r: Regs<V>, h: H)
    requires AssembleInstr(Load(val), to).Some?
    ensures VmRun(ops, Bytes(AssembleInstr(Load(val), to).value) + tail, r, h)
         == After(ops, TruncatedInstr(Load(val)), to % 256, tail, r, h)
  {
    hide VmRun;
    var code := AssembleInstr(Load(val), to).value;
    assert code + [] == code;
    Prefixed(code, [], tail);
    match val
    case Small(_) => VmStoreStep(ops, Bytes(code) + tail, r, h);
    case _ => VmStoreStep(ops, Bytes(code) + tail, r, h);
  }

  lemma ReferRuns<V, H>(ops: Ops<V, H>, from: nat, pos: nat, to: nat, tail: seq<Byte>, r: Regs<V>, h: H)
    requires AssembleInstr(Refer(from, pos), to).Some?
    ensures VmRun(ops, Bytes(AssembleInstr(Refer(from, pos), to).value) + tail, r, h)
         == After(ops, Refer(from, pos % 256), to % 256, tail, r, h)
  {
    hide VmRun;
    var code := [REFI, from, pos, to];
    assert code + [] == code;
    Prefixed(code, [], tail);
    VmStoreStep(ops, Bytes(code) + tail, r, h);
    assert Fetch(r, [from])[0] == r(from);
  }

  /** The same for an instruction with a list of results. */
  function AfterBind<V, H>(ops: Ops<V, H>, op: nat, args: seq<nat>, tos: seq<nat>, tail: seq<Byte>, r: Regs<V>,
          h: H): Option<Outcome<V, H>> {
    var vals := Fetch(r, args);
    var out := ops.bind(op, |tos|, vals, h);
    if out.Some? && |out.value.0| == |tos| then VmRun(ops, tail, PutAll(r, tos, out.value.0), out.value.1)
    else Some(Failed(r(0), op, vals, h))
  }

  lemma VmFixedStep<V, H>(ops: Ops<V, H>, bs: seq<Byte>, n: nat, outs: nat, r: Regs<V>, h: H)
    requires bs != [] && bs[0] < 64 && Layout(bs[0]) == Some((n, outs)) && outs != 1 && |bs| >= 1 + n
    ensures VmRun(ops, bs, r, h) == VmBind(ops, bs[1 + n..], bs[0], Fetch(r, bs[1..1 + n]), outs, r, h)
  {
    VmComputeStep(ops, bs, r, h);
  }

  lemma FixedRuns<V, H>(ops: Ops<V, H>, op: nat, args: seq<nat>, tos: seq<nat>, tail: seq<Byte>, r: Regs<V>, h: H)
    requires AssembleBind(op, args, tos).Some? && FixedOutputs(op) && (op == 49 ==> |tos| == 4)
    ensures VmRun(ops, Bytes(AssembleBind(op, args, tos).value) + tail, r, h)
         == AfterBind(ops, op, args, tos, tail, r, h)
  {
    hide VmRun;
    TablesAgree(op, |args|, |tos|);
    assert Layout(op) == Some((|args|, |tos|));
    RegBytes(args);
    RegBytes(tos);
    Prefixed([op] + args, tos, tail);
    var bs := Bytes([op] + args + tos) + tail;
    assert bs[1..1 + |args|] == args by {
      forall i | 0 <= i < |args| ensures bs[1 + i] == args[i] {
        assert ([op] + args)[1 + i] == args[i] && args[i] in args;
      }
    }
    VmFixedStep(ops, bs, |args|, |tos|, r, h);
    var rest := bs[1 + |args|..];
    assert rest == Bytes(tos) + tail && rest[..|tos|] == tos && rest[|tos|..] == tail;
  }

  lemma TupleBytes(args: seq<nat>, tos: seq<nat>)
    requires AssembleBind(TUPLEAPPLY, args, tos).Some?
    ensures |args| == 1 && args[0] < NREGISTERS && AllRegs(tos)
    ensures AssembleBind(TUPLEAPPLY, args, tos).value == [TUPLEAPPLY, args[0], |tos|] + tos
  {
    assert args[0] in args;
    assert [TUPLEAPPLY] + args + [|tos|] + tos == [TUPLEAPPLY, args[0], |tos|] + tos;
  }

  lemma VmTupleStep<V, H>(ops: Ops<V, H>, bs: seq<Byte>, r: Regs<V>, h: H)
    requires |bs| >= 3 && bs[0] == TUPLEAPPLY
    ensures VmRun(ops, bs, r, h) == VmBind(ops, bs[3..], TUPLEAPPLY, [r(bs[1])], bs[2], r, h)
  {
    hide VmRun;
    VmComputeStep(ops, bs, r, h);
  }

  lemma TupleAfter<V, H>(ops: Ops<V, H>, arg: nat, tos: seq<nat>, tail: seq<Byte>, r: Regs<V>, h: H)
    requires AllRegs(tos)
    ensures VmBind(ops, Bytes(tos) + tail, TUPLEAPPLY, [r(arg)], |tos|, r, h)
         == AfterBind(ops, TUPLEAPPLY, [arg], tos, tail, r, h)
  {
    hide VmRun;
    RegBytes(tos);
    var rest := Bytes(tos) + tail;
    assert rest[..|tos|] == tos && rest[|tos|..] == tail;
    assert [arg][1..] == [] && Fetch(r, [arg]) == [r(arg)];
  }

  lemma TupleRuns<V, H>(ops: Ops<V, H>, args: seq<nat>, tos: seq<nat>, tail: seq<Byte>, r: Regs<V>, h: H)
    requires AssembleBind(TUPLEAPPLY, args, tos).Some? && |tos| < 256
    ensures VmRun(ops, Bytes(AssembleBind(TUPLEAPPLY, args, tos).value) + tail, r, h)
         == AfterBind(ops, TUPLEAPPLY, args, tos, tail, r, h)
  {
    hide VmRun, VmBind, AfterBind, Bytes, AssembleBind;
    TupleBytes(args, tos);
    var head := [TUPLEAPPLY, args[0], |tos|];
    Prefixed(head, tos, tail);
    VmTupleStep(ops, Bytes(head + tos) + tail, r, h);
    TupleAfter(ops, args[0], tos, tail, r, h);
    assert args == [args[0]];
  }

  lemma BindRuns<V, H>(ops: Ops<V, H>, op: nat, args: seq<nat>, tos: seq<nat>, tail: seq<Byte>, r: Regs<V>, h: H)
    requires AssembleBind(op, args, tos).Some? && Regular(Bind(op, args, tos, Ret(0)))
    ensures VmRun(ops, Bytes(AssembleBind(op, args, tos).value) + tail, r, h)
         == AfterBind(ops, op, args, tos, tail, r, h)
  {
    hide VmRun, AfterBind;
    if op == TUPLEAPPLY {
      TupleRuns(ops, args, tos, tail, r, h);
    } else {
      FixedRuns(ops, op, args, tos, tail, r, h);
    }
  }

  lemma VmEqualStep<V, H>(ops: Ops<V, H>, bs: seq<Byte>, r: Regs<V>, h: H)
    requires |bs| >= 5 && bs[0] == JEQ
    ensures VmRun(ops, bs, r, h) == VmJump(ops, bs[5..], ops.same(r(bs[1]), r(bs[2])), Wide(bs[3], bs[4]), r, h)
  {
  }

  lemma VmJumpStep<V, H>(ops: Ops<V, H>, bs: seq<Byte>, r: Regs<V>, h: H)
    requires |bs| >= 4 && bs[0] % 64 == JP
    ensures VmRun(ops, bs, r, h)
         == VmJump(ops, bs[4..], ops.same(r(bs[1]), ops.constant(JumpConstant(bs[0] / 64))), Wide(bs[2], bs[3]), r, h)
  {
  }

  lemma Landing<V, H>(ops: Ops<V, H>, no: seq<nat>, yes: seq<Byte>, taken: bool, r: Regs<V>, h: H)
    ensures VmJump(ops, Bytes(no) + yes, taken, |no|, r, h) == VmRun(ops, if taken then yes else Bytes(no) + yes, r, h)
  {
    hide VmRun;
    assert (Bytes(no) + yes)[|no|..] == yes;
  }

  lemma OffsetBytes(len: nat)
    requires len < 0xffff
    ensures Wide(len % 256 % 256, len / 256 % 256) == len
  {
  }

  /** A conditional jump takes the bytes of the other branch for its length: it lands exactly on the
      branch taken. */
  lemma CondRuns<V, H>(ops: Ops<V, H>, cond: Cond, no: seq<nat>, yes: seq<Byte>, r: Regs<V>, h: H)
    requires AssembleCond(cond, |no|).Some?
    ensures VmRun(ops, Bytes(AssembleCond(cond, |no|).value) + (Bytes(no) + yes), r, h)
         == VmRun(ops, if Holds(ops, cond, Fetch(r, Tests(cond))) then yes else Bytes(no) + yes, r, h)
  {
    hide VmRun, VmJump;
    var head, rest, regs := AssembleCond(cond, |no|).value, Bytes(no) + yes, Tests(cond);
    assert head + [] == head;
    Prefixed(head, [], rest);
    OffsetBytes(|no|);
    var bs := Bytes(head) + rest;
    assert regs[0] in regs && bs[1] == regs[0];
    if cond.Same? {
      assert regs[1] in regs && bs[2] == regs[1];
      VmEqualStep(ops, bs, r, h);
    } else {
      VmJumpStep(ops, bs, r, h);
    }
    Landing(ops, no, yes, Holds(ops, cond, Fetch(r, regs)), r, h);
  }

  /** Two moves in one instruction are two moves. */
  lemma FusedMoves<V, H>(ops: Ops<V, H>, a: nat, b: nat, tl: seq<Byte>, r: Regs<V>, h: H)
    requires a < 256 && b < 256 && tl != [] && tl[0] == MOVE
    ensures VmRun(ops, [MOVE2, a, b] + tl[1..], r, h) == VmRun(ops, tl, Put(r, b, r(a)), h)
  {
    hide VmRun;
    var bs := [MOVE2, a, b] + tl[1..];
    VmStoreStep(ops, bs, r, h);
    VmStoreStep(ops, tl, Put(r, b, r(a)), h);
    if |tl| >= 3 {
      assert bs[3] == tl[1] && bs[4] == tl[2] && bs[5..] == tl[3..];
    }
  }

  /** Three small numbers before others. */
  lemma ThreeBytes(x: nat, a: nat, b: nat, tl: seq<nat>, rest: seq<Byte>)
    requires x < 256 && a < 256 && b < 256
    ensures Bytes([x, a, b] + tl) + rest == [x, a, b] + (Bytes(tl) + rest)
  {
    BytesJoin([x, a, b], tl);
    assert Bytes([x, a, b]) == [x, a, b];
  }

  lemma FirstByte(tl: seq<nat>, rest: seq<Byte>)
    requires tl != []
    ensures var tail := Bytes(tl) + rest;
            tail != [] && tail[0] == tl[0] % 256 && Bytes(tl[1..]) + rest == tail[1..]
  {
    assert (Bytes(tl) + rest)[1..] == Bytes(tl)[1..] + rest && Bytes(tl)[1..] == Bytes(tl[1..]);
  }

  lemma MoveBytes(a: nat, b: nat, more: Code, rest: seq<Byte>)
    requires Assemble(Move(a, b, more)).Some?
    ensures a < 256 && b < 256 && Assemble(more).Some? && Assemble(more).value != []
    ensures var tl := Assemble(more).value;
            var tail := Bytes(tl) + rest;
            && tail != [] && tail[0] == tl[0] % 256
            && Bytes(Assemble(Move(a, b, more)).value) + rest
            == if tl[0] == MOVE then [MOVE2, a, b] + tail[1..] else [MOVE, a, b] + tail
  {
    hide Bytes;
    var tl := Assemble(more).value;
    FirstByte(tl, rest);
    if tl[0] == MOVE { ThreeBytes(MOVE2, a, b, tl[1..], rest); } else { ThreeBytes(MOVE, a, b, tl, rest); }
  }

  lemma MoveRuns<V, H>(ops: Ops<V, H>, a: nat, b: nat, more: Code, rest: seq<Byte>, r: Regs<V>, h: H)
    requires Assemble(Move(a, b, more)).Some?
    ensures Assemble(more).Some?
    ensures VmRun(ops, Bytes(Assemble(Move(a, b, more)).value) + rest, r, h)
         == VmRun(ops, Bytes(Assemble(more).value) + rest, Put(r, b, r(a)), h)
  {
    hide VmRun, Bytes, Assemble;
    MoveBytes(a, b, more, rest);
    var tl := Assemble(more).value;
    var tail := Bytes(tl) + rest;
    if tl[0] == MOVE {
      FusedMoves(ops, a, b, tail, r, h);
    } else {
      var bs := [MOVE, a, b] + tail;
      assert bs[3..] == tail;
      VmStoreStep(ops, bs, r, h);
    }
  }

  /** What is assembled runs: whatever follows its bytes, the machine does with them what the code
      says, numbers read as bytes. */
  lemma {:induction false} AssembledRuns<V, H>(ops: Ops<V, H>, code: Code, rest: seq<Byte>, r: Regs<V>, h: H)
    requires Assemble(code).Some? && Regular(code)
    ensures VmRun(ops, Bytes(Assemble(code).value) + rest, r, h) == Some(Run(ops, Truncated(code), r, h))
    decreases code
  {
    hide VmRun, Bytes;
    match code
    case Ret(_) => EndRuns(ops, code, rest, r, h);
    case Goto(_, _) => EndRuns(ops, code, rest, r, h);
    case Move(a, b, more) =>
      MoveRuns(ops, a, b, more, rest, r, h);
      AssembledRuns(ops, more, rest, Put(r, b, r(a)), h);
    case Set(ins, to, more) =>
      SetRuns(ops, ins, to, more, rest, r, h);
      var out := Step(ops, TruncatedInstr(ins), Fetch(r, Reads(TruncatedInstr(ins))), h);
      if out.Some? { AssembledRuns(ops, more, rest, Put(r, to % 256, out.value.0), out.value.1); }
    case Bind(op, args, tos, more) =>
      ListRuns(ops, op, args, tos, more, rest, r, h);
      var out := ops.bind(op, |tos|, Fetch(r, args), h);
      if out.Some? && |out.value.0| == |tos| {
        AssembledRuns(ops, more, rest, PutAll(r, tos, out.value.0), out.value.1);
      }
    case Jump(cond, yes, no) =>
      JumpRuns(ops, cond, yes, no, rest, r, h);
      if Holds(ops, cond, Fetch(r, Tests(cond))) {
        AssembledRuns(ops, yes, rest, r, h);
      } else {
        AssembledRuns(ops, no, Bytes(Assemble(yes).value) + rest, r, h);
      }
  }

  lemma EndRuns<V, H>(ops: Ops<V, H>, code: Code, rest: seq<Byte>, r: Regs<V>, h: H)
    requires (code.Ret? || code.Goto?) && Assemble(code).Some?
    ensures VmRun(ops, Bytes(Assemble(code).value) + rest, r, h) == Some(Run(ops, Truncated(code), r, h))
  {
  }

  lemma ListRuns<V, H>(ops: Ops<V, H>, op: nat, args: seq<nat>, tos: seq<nat>, more: Code, rest: seq<Byte>,
          r: Regs<V>, h: H)
    requires Assemble(Bind(op, args, tos, more)).Some? && Regular(Bind(op, args, tos, more))
    ensures Assemble(more).Some?
    ensures VmRun(ops, Bytes(Assemble(Bind(op, args, tos, more)).value) + rest, r, h)
         == AfterBind(ops, op, args, tos, Bytes(Assemble(more).value) + rest, r, h)
  {
    hide VmRun, AfterBind;
    var code, tl := AssembleBind(op, args, tos).value, Assemble(more).value;
    BytesJoin(code, tl);
    assert Bytes(code + tl) + rest == Bytes(code) + (Bytes(tl) + rest);
    BindRuns(ops, op, args, tos, Bytes(tl) + rest, r, h);
  }

  lemma SetRuns<V, H>(ops: Ops<V, H>, ins: Instr, to: nat, more: Code, rest: seq<Byte>, r: Regs<V>, h: H)
    requires Assemble(Set(ins, to, more)).Some? && Regular(Set(ins, to, more))
    ensures Assemble(more).Some? && Regular(more)
    ensures VmRun(ops, Bytes(Assemble(Set(ins, to, more)).value) + rest, r, h)
         == After(ops, TruncatedInstr(ins), to % 256, Bytes(Assemble(more).value) + rest, r, h)
  {
    hide VmRun, After;
    var code, tl := AssembleInstr(ins, to).value, Assemble(more).value;
    BytesJoin(code, tl);
    assert Bytes(code + tl) + rest == Bytes(code) + (Bytes(tl) + rest);
    InstrRuns(ops, ins, to, Bytes(tl) + rest, r, h);
  }

  lemma JumpRuns<V, H>(ops: Ops<V, H>, cond: Cond, yes: Code, no: Code, rest: seq<Byte>, r: Regs<V>, h: H)
    requires Assemble(Jump(cond, yes, no)).Some?
    ensures Assemble(yes).Some? && Assemble(no).Some?
    ensures VmRun(ops, Bytes(Assemble(Jump(cond, yes, no)).value) + rest, r, h)
         == if Holds(ops, cond, Fetch(r, Tests(cond))) then VmRun(ops, Bytes(Assemble(yes).value) + rest, r, h)
            else VmRun(ops, Bytes(Assemble(no).value) + (Bytes(Assemble(yes).value) + rest), r, h)
  {
    hide VmRun;
    var y, n := Assemble(yes).value, Assemble(no).value;
    var c := AssembleCond(cond, |n|).value;
    BytesJoin(c, n + y);
    BytesJoin(n, y);
    assert Bytes(c + (n + y)) + rest == Bytes(c) + (Bytes(n) + (Bytes(y) + rest));
    CondRuns(ops, cond, n, Bytes(y) + rest, r, h);
  }

  /** Every number of the code fits the byte it gets. */
  predicate InRange(code: Code) {
    match code
    case Ret(_) => true
    case Goto(_, nargs) => nargs < 256
    case Move(_, _, more) => InRange(more)
    case Set(ins, to, more) =>
      && to < 256 && InRange(more)
      && (match ins
          case Closure(_, _, off, _) => off < 256
          case Refer(_, pos) => pos < 256
          case Load(Small(n)) => 0 <= n < 256
          case _ => true)
    case Bind(_, _, _, more) => InRange(more)
    case Jump(_, yes, no) => InRange(yes) && InRange(no)
  }

  /** Reading numbers as bytes changes nothing exactly when they are in range. */
  lemma {:induction false} InRangeExact(code: Code)
    ensures InRange(code) <==> Truncated(code) == code
  {
    match code
    case Ret(_) =>
    case Goto(_, _) =>
    case Move(_, _, more) => InRangeExact(more);
    case Set(ins, _, more) => InRangeExact(more);
    case Bind(_, _, _, more) => InRangeExact(more);
    case Jump(_, yes, no) =>
      InRangeExact(yes);
      InRangeExact(no);
  }

  lemma LoadReturns<V, H>(ops: Ops<V, H>, n: int, to: nat, r: Regs<V>, h: H)
    ensures Run(ops, Set(Load(Small(n)), to, Ret(to)), r, h)
         == Returned(Put(r, to, ops.constant(Small(n)))(A0), ops.constant(Small(n)), h)
  {
    assert Run(ops, Set(Load(Small(n)), to, Ret(to)), r, h) == Run(ops, Ret(to), Put(r, to, ops.constant(Small(n))), h);
  }

  /** A load of a small number, from -126 to 126: the machine loads what was meant exactly when it is not
      negative.  There is no load for any other number. */
  lemma LoadExact<V, H>(ops: Ops<V, H>, n: int, to: nat, r: Regs<V>, h: H)
    requires to < NREGISTERS
    requires forall i, j :: ops.constant(Small(i)) == ops.constant(Small(j)) ==> i == j
    ensures var code := Set(Load(Small(n)), to, Ret(to));
            && (Assemble(code).Some? <==> -126 <= n <= 126)
            && (Assemble(code).Some? ==>
                  (VmRun(ops, Bytes(Assemble(code).value), r, h) == Some(Run(ops, code, r, h)) <==> n >= 0))
  {
    var code := Set(Load(Small(n)), to, Ret(to));
    assert Assemble(Ret(to)) == Some([RET, to]);
    if -126 <= n <= 126 {
      assert AssembleInstr(Load(Small(n)), to).Some?;
      assert Assemble(code).value == AssembleInstr(Load(Small(n)), to).value + [RET, to];
      AssembledRuns(ops, code, [], r, h);
      assert Bytes(Assemble(code).value) + [] == Bytes(Assemble(code).value);
      LoadReturns(ops, n, to, r, h);
      LoadReturns(ops, n % 256, to, r, h);
      assert Truncated(code) == Set(Load(Small(n % 256)), to, Ret(to));
    }
  }

  // ---- When there are bytes, and how many ----

  /** The registers an instruction names exist, its primitive is used with the operands it has, and what it loads can be
      loaded; for most primitives the register of the result is not looked at. */
  predicate InstrFits(ins: Instr, to: nat) {
    && (forall a :: a in Reads(ins) ==> a < NREGISTERS)
    && match ins
       case Prim(op, args) =>
         if op > 255 then 0 < |args| <= NREGISTERS && to < NREGISTERS
         else if op == VMNEW then to < NREGISTERS
         else ArityOk(op, |args|, 1)
       case Load(Small(n)) => -126 <= n <= 126 && to < NREGISTERS
       case _ => to < NREGISTERS
  }

  function OpLength(op: nat): nat {
    if op < 256 then 1 else 1 + OpLength(op / 256)
  }

  function InstrLength(ins: Instr): nat {
    match ins
    case Prim(op, args) => OpLength(op) + |args| + (if op > 255 || op == VMNEW then 2 else 1)
    case Closure(_, lp, _, env) => |env| + if lp == 1 then 4 else 5
    case Load(val) => if val.Small? then 3 else 2
    case Refer(_, _) => 4
  }

  function BindLength(op: nat, args: seq<nat>, tos: seq<nat>): nat {
    |args| + |tos| + if FixedOutputs(op) then 1 else 2
  }

  function CondLength(cond: Cond): nat {
    if cond.Same? then 5 else 4
  }

  function TopDigit(op: nat): nat {
    if op < 256 then op else TopDigit(op / 256)
  }

  /** The code starts with a move that is not fused with the next. */
  predicate Single(code: Code) {
    match code
    case Move(_, _, more) => !Single(more)
    case Set(Prim(op, _), _, _) => TopDigit(op) == MOVE
    case Bind(op, _, _, _) => op == MOVE
    case _ => false
  }

  /** How many bytes the code takes: two moves in a row take five together. */
  function Length(code: Code): nat {
    match code
    case Ret(_) => 2
    case Goto(_, _) => 3
    case Move(_, _, more) => Length(more) + if Single(more) then 2 else 3
    case Set(ins, _, more) => InstrLength(ins) + Length(more)
    case Bind(op, args, tos, more) => BindLength(op, args, tos) + Length(more)
    case Jump(cond, yes, no) => CondLength(cond) + Length(yes) + Length(no)
  }

  /** All instructions can be had. */
  predicate Checked(code: Code) {
    match code
    case Ret(a) => a < NREGISTERS
    case Goto(fn, _) => fn < NREGISTERS
    case Move(a, b, more) => a < NREGISTERS && b < NREGISTERS && Checked(more)
    case Set(ins, to, more) => InstrFits(ins, to) && Checked(more)
    case Bind(op, args, tos, more) =>
      && op < 256 && op != VMNEW && ArityOk(op, |args|, |tos|) && Checked(more)
      && forall a :: a in args + tos ==> a < NREGISTERS
    case Jump(cond, yes, no) => (forall a :: a in Tests(cond) ==> a < NREGISTERS) && Checked(yes) && Checked(no)
  }

  /** The branch that a jump leaps over is short enough for two bytes. */
  predicate ShortJumps(code: Code) {
    match code
    case Move(_, _, more) => ShortJumps(more)
    case Set(_, _, more) => ShortJumps(more)
    case Bind(_, _, _, more) => ShortJumps(more)
    case Jump(_, yes, no) => Length(no) < 0xffff && ShortJumps(yes) && ShortJumps(no)
    case _ => true
  }

  lemma {:induction false} OutputCodeIs(op: nat, lst: seq<nat>)
    ensures |OutputCode(op, lst)| == OpLength(op) + |lst| && OutputCode(op, lst)[0] == TopDigit(op)
    decreases op
  {
    if op >= 256 { OutputCodeIs(op / 256, [op % 256] + lst); }
  }

  lemma InstrExact(ins: Instr, to: nat)
    ensures AssembleInstr(ins, to).Some? <==> InstrFits(ins, to)
    ensures AssembleInstr(ins, to).Some? ==>
              var bs := AssembleInstr(ins, to).value;
              |bs| == InstrLength(ins) > 0 && (bs[0] == MOVE <==> ins.Prim? && TopDigit(ins.op) == MOVE)
  {
    match ins
    case Prim(op, args) => if args != [] { OutputCodeIs(op, [|args| - 1] + args + [to]); }
    case Closure(_, lp, _, env) => assert AllRegs([lp] + env) <==> forall a :: a in Reads(ins) ==> a < NREGISTERS;
    case Load(_) =>
    case Refer(from, _) => assert from in Reads(ins);
  }

  lemma BindExact(op: nat, args: seq<nat>, tos: seq<nat>)
    ensures AssembleBind(op, args, tos).Some? <==>
              && op < 256 && op != VMNEW && ArityOk(op, |args|, |tos|)
              && forall a :: a in args + tos ==> a < NREGISTERS
    ensures AssembleBind(op, args, tos).Some? ==>
              var bs := AssembleBind(op, args, tos).value;
              |bs| == BindLength(op, args, tos) > 0 && bs[0] == op
  {
    assert forall a :: a in args + tos <==> a in args || a in tos;
  }

  lemma CondExact(cond: Cond, len: nat)
    ensures AssembleCond(cond, len).Some? <==> len < 0xffff && forall a :: a in Tests(cond) ==> a < NREGISTERS
    ensures AssembleCond(cond, len).Some? ==>
              |AssembleCond(cond, len).value| == CondLength(cond) && AssembleCond(cond, len).value[0] != MOVE
  {
  }

  /** There are bytes for code if and only if its instructions can be had and its jumps are short; how many there are
      can be told without making them. */
  lemma {:induction false} AssembleExact(code: Code)
    ensures Assemble(code).Some? <==> Checked(code) && ShortJumps(code)
    ensures Assemble(code).Some? ==>
              var bs := Assemble(code).value; |bs| == Length(code) > 0 && (bs[0] == MOVE <==> Single(code))
  {
    hide AssembleInstr, InstrFits, InstrLength, AssembleBind, BindLength, AssembleCond, ArityOk, TopDigit;
    match code
    case Ret(_) =>
    case Goto(_, _) =>
    case Move(_, _, more) => AssembleExact(more);
    case Set(ins, to, more) =>
      InstrExact(ins, to);
      AssembleExact(more);
    case Bind(op, args, tos, more) =>
      BindExact(op, args, tos);
      AssembleExact(more);
    case Jump(cond, yes, no) =>
      AssembleExact(yes);
      AssembleExact(no);
      CondExact(cond, Length(no));
  }
}
