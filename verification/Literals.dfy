/** Which constants are loaded, and which are taken from the literals of a procedure. */
module Literals {
  import opened Wrappers

  import Assembler
  import Closure
  import Rtl

  /** How a constant that is not among the literals is loaded. */
  function Loaded(c: Closure.Const): Option<Rtl.Const> {
    match c
    case True => Some(Rtl.True)
    case False => Some(Rtl.False)
    case Null => Some(Rtl.Null)
    case Num(n) => Some(Rtl.Small(n))
    case _ => None
  }

  /** The constants that closure conversion does not store are those that the assembler can load, and -127, which it
      cannot. */
  lemma SmallIsLoaded(c: Closure.Const, to: nat)
    requires to < Assembler.NREGISTERS
    ensures Closure.Small(c) <==>
              || c == Closure.Num(-127)
              || (Loaded(c).Some? && Assembler.AssembleInstr(Rtl.Load(Loaded(c).value), to).Some?)
  {
  }
}
