/** The main loop of the virtual machine, as it reads bytes.  All its jumps go forward, so what it
    does from some instruction on depends on the bytes from there on only. */
module Vm {
  import opened Rtl
  import opened Wrappers

  const GOTO := 2
  const RET := 24
  const LDI := 13
  const LD := 14
  const REFI := 1
  const MOVE := 9
  const MOV2 := 5
  const JEQ := 8
  const JP := 16
  const VMNEW := 23
  const TUPLEAPPLY := 32

  /** How many registers each of the other instructions reads, and how many it then sets. */
  function Layout(op: nat): Option<(nat, nat)> {
    match op
    case 28 | 29 | 30 | 31 | 62 => Some((0, 1))                 // endianness, wordsize, maxvalue, valuewidth, version
    case 61 => Some((0, 2))                                     // clock
    // type, size, ff:right?, ff:red?, ff:toggle, raw?, car, cdr
    case 15 | 36 | 37 | 41 | 46 | 48 | 52 | 53 => Some((1, 1))
    case 49 => Some((1, 4))                                     // ff:bind
    case 22 | 33 | 35 | 44 | 47 | 51 => Some((2, 1))            // cast, fpu1, new-object, less?, ref, cons
    case 54 | 55 | 56 | 57 | 60 => Some((2, 1))                 // eq?, and, or, xor, new-raw-object
    case 38 | 39 | 40 | 58 | 59 => Some((2, 2))                 // add, mul, sub, shr, shl
    case 10 | 34 | 45 => Some((3, 1))                           // set-ref!, fpu2, set-ref
    case 26 => Some((3, 3))                                     // div
    case 42 | 43 | 63 => Some((4, 1))                           // ff:black, ff:red, syscall
    case _ => None
  }

  /** The constants that the two high bits of LDI and of the jumps select. */
  function LoadConstant(hi: nat): Const {
    if hi == 0 then Empty else if hi == 1 then Null else if hi == 2 then True else False
  }

  function JumpConstant(hi: nat): Const {
    if hi == 0 then Small(0) else if hi == 1 then Null else if hi == 2 then Empty else False
  }

  function Wide(lo: nat, hi: nat): nat {
    lo + 256 * hi
  }

  function Next(n: nat): nat {
    n + 1
  }

  /** The size of a closure without its header and its code. */
  function Spare(size: nat): nat
    requires size >= 2
  {
    size - 2
  }

  /** What running the bytes comes to; None when the machine runs off the end of them, or meets an
      instruction that is not among those above. */
  function VmRun<V, H>(ops: Ops<V, H>, bs: seq<Byte>, r: Regs<V>, h: H): Option<Outcome<V, H>>
    decreases |bs|, 3
  {
    if bs == [] then None
    else
      var op, hi := bs[0] % 64, bs[0] / 64;
      if op == GOTO then
        if |bs| < 3 then None else Some(Called(r(bs[1]), Fetch(r, Range(A0, A0 + bs[2])), h))
      else if op == RET then
        if |bs| < 2 then None else Some(Returned(r(A0), r(bs[1]), h))
      else if op == JEQ then
        if |bs| < 5 then None
        else VmJump(ops, bs[5..], ops.same(r(bs[1]), r(bs[2])), Wide(bs[3], bs[4]), r, h)
      else if op == JP then
        if |bs| < 4 then None
        else VmJump(ops, bs[4..], ops.same(r(bs[1]), ops.constant(JumpConstant(hi))), Wide(bs[2], bs[3]), r, h)
      else if op in {MOVE, MOV2, LDI, LD, REFI} then VmStore(ops, bs, op, hi, r, h)
      else VmCompute(ops, bs, op, r, h)
  }

  /** Moves and loads. */
  function VmStore<V, H>(ops: Ops<V, H>, bs: seq<Byte>, op: nat, hi: nat, r: Regs<V>, h: H): Option<Outcome<V, H>>
    requires op in {MOVE, MOV2, LDI, LD, REFI}
    decreases |bs|, 2
  {
    if op == MOVE then
      if |bs| < 3 then None else VmRun(ops, bs[3..], Put(r, bs[2], r(bs[1])), h)
    else if op == MOV2 then
      if |bs| < 5 then None
      else
        var r' := Put(r, bs[2], r(bs[1]));
        VmRun(ops, bs[5..], Put(r', bs[4], r'(bs[3])), h)
    else if op == LDI then
      if |bs| < 2 then None else VmRun(ops, bs[2..], Put(r, bs[1], ops.constant(LoadConstant(hi))), h)
    else if op == LD then
      if |bs| < 3 then None else VmRun(ops, bs[3..], Put(r, bs[2], ops.constant(Small(bs[1]))), h)
    else
      if |bs| < 4 then None else VmRun(ops, bs[4..], Put(r, bs[3], ops.refer(r(bs[1]), bs[2], h)), h)
  }

  /** Closures, objects, bindings and primitives. */
  function VmCompute<V, H>(ops: Ops<V, H>, bs: seq<Byte>, op: nat, r: Regs<V>, h: H): Option<Outcome<V, H>>
    requires bs != []
    decreases |bs|, 2
  {
    if op == 3 || op == 4 then
      if |bs| < 4 || bs[1] < 2 then None else VmClose(ops, bs[4..], op == 3, Spare(bs[1]), r(bs[2]), bs[3], r, h)
    else if op == 6 || op == 7 then
      if |bs| < 3 || bs[1] < 2 then None else VmClose(ops, bs[3..], op == 6, Spare(bs[1]), r(1), bs[2], r, h)
    else if op == VMNEW then
      if |bs| < 3 then None else VmPrim(ops, bs[3..], Wide(bs[1], VMNEW), Next(bs[2]), r, h)
    else if op == TUPLEAPPLY then
      if |bs| < 3 then None else VmBind(ops, bs[3..], TUPLEAPPLY, [r(bs[1])], bs[2], r, h)
    else
      match Layout(op)
      case None => None
      case Some((nin, nout)) =>
        if nout == 1 then VmPrim(ops, bs[1..], op, nin, r, h)
        else if |bs| < 1 + nin then None
        else VmBind(ops, bs[1 + nin..], op, Fetch(r, bs[1..1 + nin]), nout, r, h)
  }

  function VmJump<V, H>(ops: Ops<V, H>, bs: seq<Byte>, taken: bool, offset: nat, r: Regs<V>,
          h: H): Option<Outcome<V, H>>
    decreases |bs| + 1, 0
  {
    if !taken then VmRun(ops, bs, r, h)
    else if offset > |bs| then None
    else VmRun(ops, bs[offset..], r, h)
  }

  /** n operands and a register for the result. */
  function VmPrim<V, H>(ops: Ops<V, H>, bs: seq<Byte>, op: nat, n: nat, r: Regs<V>, h: H): Option<Outcome<V, H>>
    decreases |bs|, 4
  {
    if |bs| < n + 1 then None
    else
      var vals := Fetch(r, bs[..n]);
      var out := ops.prim(op, vals, h);
      if out.Some? then VmRun(ops, bs[n + 1..], Put(r, bs[n], out.value.0), out.value.1)
      else Some(Failed(r(0), op, vals, h))
  }

  /** n registers for the results. */
  function VmBind<V, H>(ops: Ops<V, H>, bs: seq<Byte>, op: nat, vals: seq<V>, n: nat, r: Regs<V>,
          h: H): Option<Outcome<V, H>>
    decreases |bs| + 1, 0
  {
    if |bs| < n then None
    else
      var out := ops.bind(op, n, vals, h);
      if out.Some? && |out.value.0| == n then VmRun(ops, bs[n..], PutAll(r, bs[..n], out.value.0), out.value.1)
      else Some(Failed(r(0), op, vals, h))
  }

  /** n closed-over registers and a register for the closure. */
  function VmClose<V, H>(ops: Ops<V, H>, bs: seq<Byte>, whole: bool, n: nat, lits: V, off: nat, r: Regs<V>,
          h: H): Option<Outcome<V, H>>
    decreases |bs|, 4
  {
    if |bs| < n + 1 then None
    else
      var out := ops.close(whole, lits, off, Fetch(r, bs[..n]), h);
      VmRun(ops, bs[n + 1..], Put(r, bs[n], out.0), out.1)
  }
}
