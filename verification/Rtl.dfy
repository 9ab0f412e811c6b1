/** The register-transfer language between the compiler and the assembler, and what it means. */
module Rtl {
  import opened Lists
  import opened Wrappers

  /** What `ld` can load. */
  datatype Const = Small(n: int) | Null | False | True | Empty

  /** An instruction that sets one register. */
  datatype Instr =
    | Prim(op: nat, args: seq<nat>)
    | Closure(whole: bool, lp: nat, off: nat, env: seq<nat>)   // clos-proc, or clos-code
    | Load(val: Const)
    | Refer(from: nat, pos: nat)

  datatype Cond = Same(a: nat, b: nat) | IsNull(r: nat) | IsZero(r: nat) | IsEmpty(r: nat) | IsFalse(r: nat)

  datatype Code =
    | Ret(val: nat)
    | Goto(fn: nat, nargs: nat)
    | Move(src: nat, dst: nat, more: Code)
    | Set(ins: Instr, to: nat, more: Code)
    | Bind(op: nat, args: seq<nat>, tos: seq<nat>, more: Code)   // a prim with a list of results
    | Jump(cond: Cond, yes: Code, no: Code)

  const A0 := 3    // the first argument, usually the continuation

  function Reads(ins: Instr): seq<nat> {
    match ins
    case Prim(_, args) => args
    case Closure(_, lp, _, env) => [lp] + env
    case Load(_) => []
    case Refer(from, _) => [from]
  }

  function Tests(cond: Cond): seq<nat> {
    match cond
    case Same(a, b) => [a, b]
    case IsNull(r) => [r]
    case IsZero(r) => [r]
    case IsEmpty(r) => [r]
    case IsFalse(r) => [r]
  }

  /** What the instructions do to values: V is the type of values, H that of the heap.  An
      instruction that cannot go on has no result. */
  datatype Ops<!V, !H> = Ops(
    prim: (nat, seq<V>, H) -> Option<(V, H)>,
    bind: (nat, nat, seq<V>, H) -> Option<(seq<V>, H)>,
    close: (bool, V, nat, seq<V>, H) -> (V, H),
    constant: Const -> V,
    refer: (V, nat, H) -> V,
    same: (V, V) -> bool)

  type Regs<!V> = nat -> V

  function Put<V>(r: Regs<V>, to: nat, v: V): Regs<V> {
    (x: nat) => if x == to then v else r(x)
  }

  function PutAll<V>(r: Regs<V>, tos: seq<nat>, vs: seq<V>): Regs<V>
    requires |vs| == |tos|
  {
    if tos == [] then r else PutAll(Put(r, tos[0], vs[0]), tos[1..], vs[1..])
  }

  function Fetch<V>(r: Regs<V>, regs: seq<nat>): (vs: seq<V>)
    ensures |vs| == |regs|
    ensures forall i :: 0 <= i < |regs| ==> vs[i] == r(regs[i])
  {
    seq(|regs|, i requires 0 <= i < |regs| => r(regs[i]))
  }

  function Range(from: nat, to: nat): (s: seq<nat>)
    ensures forall x :: x in s <==> from <= x < to
    ensures |s| == if from <= to then to - from else 0
    ensures (forall i :: 0 <= i < |s| ==> s[i] == from + i)
    decreases if from < to then to - from else 0
  {
    if from >= to then [] else [from] + Range(from + 1, to)
  }

  /** How a piece of code ends: by returning to the continuation in register 3, by calling
      something with the arguments in the registers from 3 on, or by handing a failed instruction to
      the error handler in register 0. */
  datatype Outcome<V, H> =
    | Returned(cont: V, val: V, heap: H)
    | Called(fn: V, args: seq<V>, heap: H)
    | Failed(handler: V, op: nat, args: seq<V>, heap: H)

  function Step<V, H>(ops: Ops<V, H>, ins: Instr, vals: seq<V>, h: H): Option<(V, H)>
    requires |vals| == |Reads(ins)|
  {
    match ins
    case Prim(op, _) => ops.prim(op, vals, h)
    case Closure(whole, _, off, _) => Some(ops.close(whole, vals[0], off, vals[1..], h))
    case Load(val) => Some((ops.constant(val), h))
    case Refer(_, pos) => Some((ops.refer(vals[0], pos, h), h))
  }

  function Holds<V, H>(ops: Ops<V, H>, cond: Cond, vals: seq<V>): bool
    requires |vals| == |Tests(cond)|
  {
    match cond
    case Same(_, _) => ops.same(vals[0], vals[1])
    case IsNull(_) => ops.same(vals[0], ops.constant(Null))
    case IsZero(_) => ops.same(vals[0], ops.constant(Small(0)))
    case IsEmpty(_) => ops.same(vals[0], ops.constant(Empty))
    case IsFalse(_) => ops.same(vals[0], ops.constant(False))
  }

  function OpcodeOf(ins: Instr): nat {
    if ins.Prim? then ins.op else 0
  }

  function Run<V, H>(ops: Ops<V, H>, code: Code, r: Regs<V>, h: H): Outcome<V, H> {
    match code
    case Ret(val) => Returned(r(A0), r(val), h)
    case Goto(fn, nargs) => Called(r(fn), Fetch(r, Range(A0, A0 + nargs)), h)
    case Move(src, dst, more) => Run(ops, more, Put(r, dst, r(src)), h)
    case Set(ins, to, more) =>
      var vals := Fetch(r, Reads(ins));
      var out := Step(ops, ins, vals, h);
      if out.Some? then Run(ops, more, Put(r, to, out.value.0), out.value.1) else Failed(r(0), OpcodeOf(ins), vals, h)
    case Bind(op, args, tos, more) =>
      var vals := Fetch(r, args);
      var out := ops.bind(op, |tos|, vals, h);
      if out.Some? && |out.value.0| == |tos| then Run(ops, more, PutAll(r, tos, out.value.0), out.value.1)
      else Failed(r(0), op, vals, h)
    case Jump(cond, yes, no) =>
      if Holds(ops, cond, Fetch(r, Tests(cond))) then Run(ops, yes, r, h) else Run(ops, no, r, h)
  }

  /** Registers whose value on entry matters, the implicit ones included. */
  function Live(code: Code): set<nat> {
    match code
    case Ret(val) => {A0, val}
    case Goto(fn, nargs) => {fn} + Elems(Range(A0, A0 + nargs))
    case Move(src, dst, more) => if src == dst then Live(more) else Live(more) - {dst} + {src}
    case Set(ins, to, more) => Live(more) - {to} + Elems(Reads(ins))
    case Bind(_, args, tos, more) => Live(more) - Elems(tos) + Elems(args)
    case Jump(cond, yes, no) => Live(yes) + Live(no) + Elems(Tests(cond))
  }

  lemma {:induction false} PutAllAt<V>(r: Regs<V>, r': Regs<V>, tos: seq<nat>, vs: seq<V>, x: nat, x': nat)
    requires |vs| == |tos|
    requires x' in tos || x in tos ==> x' == x
    requires x !in tos ==> r'(x') == r(x)
    ensures PutAll(r', tos, vs)(x') == PutAll(r, tos, vs)(x)
    decreases |tos|
  {
    if tos != [] {
      var q, q' := Put(r, tos[0], vs[0]), Put(r', tos[0], vs[0]);
      PutAllAt(q, q', tos[1..], vs[1..], x, x');
    }
  }

  /** Code does the same from registers that agree on what is live. */
  lemma {:induction false} LiveDecides<V, H>(ops: Ops<V, H>, code: Code, r: Regs<V>, r': Regs<V>, h: H)
    requires forall x :: x in Live(code) || x == 0 ==> r'(x) == r(x)
    ensures Run(ops, code, r', h) == Run(ops, code, r, h)
    decreases code
  {
    match code
    case Ret(_) =>
    case Goto(_, nargs) =>
      assert Fetch(r', Range(A0, A0 + nargs)) == Fetch(r, Range(A0, A0 + nargs));
    case Move(src, dst, more) =>
      LiveDecides(ops, more, Put(r, dst, r(src)), Put(r', dst, r'(src)), h);
    case Set(ins, to, more) =>
      var vals := Fetch(r, Reads(ins));
      assert Fetch(r', Reads(ins)) == vals;
      var out := Step(ops, ins, vals, h);
      if out.Some? {
        LiveDecides(ops, more, Put(r, to, out.value.0), Put(r', to, out.value.0), out.value.1);
      }
    case Bind(op, args, tos, more) =>
      var vals := Fetch(r, args);
      assert Fetch(r', args) == vals;
      var out := ops.bind(op, |tos|, vals, h);
      if out.Some? && |out.value.0| == |tos| {
        var q, q' := PutAll(r, tos, out.value.0), PutAll(r', tos, out.value.0);
        forall x | x in Live(more) || x == 0 ensures q'(x) == q(x) {
          PutAllAt(r, r', tos, out.value.0, x, x);
        }
        LiveDecides(ops, more, q, q', out.value.1);
      }
    case Jump(cond, yes, no) =>
      assert Fetch(r', Tests(cond)) == Fetch(r, Tests(cond));
      LiveDecides(ops, yes, r, r', h);
      LiveDecides(ops, no, r, r', h);
  }
}
