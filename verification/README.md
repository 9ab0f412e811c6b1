# Otus Lisp: the virtual machine's heap, the compiler's passes and the thread controller

Otus Lisp is a bytecode machine in C (`src/olvm.c`) with a compiler that is written in Scheme
(`lang/*.scm`).  This project models the parts of both whose correctness is decided by code, and proves
properties of them.  `dafny verify dfyconfig.toml` checks all of it.

**The heap** (`HeapModel`, `Marking`, `Sweeping`, `HeapGraph`, `Collection`, `Moving`, `Heap`, `Machine`).
The collector is a generational, sliding compactor that marks by pointer reversal.  It is modelled as a
class over an array of words and runs step by step as the C code does: `mark` threads every slot that
refers to an object into a chain that starts at the object's header, `chase` finds the way back, `sweep`
takes the chains apart while it slides objects down.  A word is an immediate, a pointer, a pointer with the
mark bit, or a header; no bits are looked at.  A heap is *sound* when objects lie end to end and each
pointer goes to a strictly lower object, which is why one pass is enough.  `SameGraph` says that two heaps
hold the same graph below a root: the same headers and raw words, every pointer following the relocation,
and addresses kept in order.  The object that holds the registers is always the newest one.

**Finite functions** (`FiniteFunctions`): search trees whose keys are compared as words, in four node
layouts.  They live in the heap, so their order has to survive collections.

**Images** (`Image`, `Loader`): what `fasl.scm` writes, and the two passes in which the machine reads it.

**The compiler**, back to front: calls with any number of arguments (`Variadic`), bytes and the machine's
main loop (`Vm`, `Assembler`), register code and what it means (`Rtl`), register retargeting (`Registers`),
the two together (`Backend`), parallel argument moves (`Calls`), closure conversion (`Closure`) and the constants it stores (`Literals`),
continuation-passing style (`Ast`, `Cps`), these two together (`Middle`), alpha conversion and generated
names (`Alpha`), these three together (`Frontend`), letrec elimination: in which groups functions are bound
(`Letrec`), how the calls of a group are rewritten (`Recursion`) and what is bound (`Groups`), macro rules
(`Macro`).  What instructions compute is a parameter (`Ops`, `Delta`), so the statements about passes hold
whatever it is.  `Run`, `VmRun`, `Eval`, `Means` and `Yield` are reference meanings that do not know about the
passes: of register code, of bytes, of expressions with names, of expressions in which a variable is the place
of its binder, and of expressions in the scope of groups of recursive functions.

**Threads** (`Threads`, `Queues`): the scheduler as a step function; which system call a thread makes next
is a parameter, so the statements hold for every run.

`Lists` and `Wrappers` hold what these share: lists, options, bytes and symbols.

## Where the code does not do what it might be expected to

Each of these is stated in the project, by a concrete case, by the exact condition under which all is well, or
by both.

- A finite function that has both immediates and pointers for keys can lose keys: `less?` orders them by
  kind and then by word, while `get` compares words (`MixedKeysMissed`; exact condition: `FindPresent`).
- `set-ref!` accepts a position equal to the object's size, which overwrites the next object's header
  (`SetRefInPlace` says exactly when the heap stays sound).
- Retargeting checks lists of results for conflicts by comparing with single registers, so a value can be
  clobbered by a result that nobody needs (`DeadResultClobbers`).
- The assembler takes loads down to -126, but the machine reads their byte as unsigned; and the passes before it
  (`lang/compile.scm`, `lang/closure.scm`) count -127 as small, for which there is no load (`LoadExact`).
- Numbers that do not fit a byte are cut off without an error (`AssembledRuns` says what is run then;
  `InRangeExact` when nothing changes).
- A call of the continuation register with one operand is compiled to a return (`JumpToSound`,
  `CallAllSound`); the value is passed to the same continuation.
- A macro pattern with an ellipsis after a body without variables forgets how often it matched
  (`LiteralItemsLost`; `MatchThenRewrite` says what is given back, and that this is the form if and only if no
  such body took an item).
- A variable that is used plainly after it was used under an ellipsis can be asked for a value it does not have
  (`RepeatedVariableBreaks`; exact condition, for ellipses that are not nested: `BreaksExactly`).  So can one that comes
  after an ellipsis under an ellipsis (`NestedVariableBreaks`; without such a variable matching is exact:
  `MatchesExactly`).
- An image may hold a reference of an object to itself, if the number is written with a leading zero digit;
  the collector would not survive it (`ZeroDifference`; exact condition: `LoadedSound`).
- A recursive function is given what it depends on in further formals of the same names.  If one of its own formals,
  or a binder inside it, has such a name, the wrong value is taken (`FormalCaptured`; it cannot happen under
  `GroupOk`, which `ApartOk` derives from names that do not clash).  `GroupOk` is not necessary: a call that takes
  the wrong value may be one that is never made.
- `accept-mail` puts the mails that it skipped back behind those that have come since, so it does not keep the order
  of mail (`AcceptReorders`; `MailConserved` has the order for any run, `InOrder` when nothing is put back).
- The first free generated name is found without looking at the formals after one that is named `quote`, so a
  new binder can have a name of the program (`HiddenNameReused`; exact condition: `AlphaConverted`; nothing can go
  wrong without such a formal: `AllNewer`).  The program means the same all the same (`FrontendRuns`).

Closure conversion puts a procedure with the formal `_foo` in place of a primitive's continuation when that is a
variable.  This is right if and only if no such variable is named `_foo` itself (`ConversionExact`): if one is, the
procedure calls the result with itself, and the continuation is lost (`ForwardGoes`).  The passes before it leave
generated names only, so it always is right (`InConvertible`, `BothRun`).

## Model

| member | source | states |
|---|---|---|
| HeapObject.Heap.Chase | src/olvm.c:1162-1172 | from any slot of an object's chain it gets to the first slot that was threaded, the one the object was reached by |
| HeapObject.Heap.Mark | src/olvm.c:1224-1255 | terminates on every heap without a stack; afterwards the chain of each object found runs through exactly the slots that referred to it and ends in its header, and an object has a chain if and only if it can be reached from the root |
| Marking.Step | src/olvm.c:1228-1254 | each turn of the traversal keeps its invariant; either one more slot is done for good, or the path back gets shorter, so no slot is scanned twice |
| Marking.MarkDone | src/olvm.c:1224-1255 | at the end nothing is left over: all chains are complete and every pointer of a found object is in one |
| Marking.FoundExactly | src/olvm.c:1224-1255 | what has been found is closed under pointers, so it is all that can be reached, and nothing else |
| HeapObject.Heap.Unthread | src/olvm.c:1272-1283 | gives every slot of a chain the object's new address and the object its header back |
| HeapObject.Heap.Sweep | src/olvm.c:1265-1300 | slides the objects that were found together, in order and without gaps, each with its header, raw words and redirected pointers; leaves everything below the young area as it was |
| Sweeping.SweepLive | src/olvm.c:1272-1296 | moving one object keeps the sweep's invariant although it may overwrite its own old place |
| Sweeping.DestOrder | src/olvm.c:1265-1300 | survivors keep their order, do not overlap and never move up |
| Collection.CompactedSameGraph | src/olvm.c:1224-1300 | after mark and sweep the heap holds the same graph below the root, young and old objects alike |
| Collection.SurvivorsReached | src/olvm.c:1224-1300 | of the collected area nothing survives that was not reachable |
| Collection.RelocationOrder | src/olvm.c:1265-1300 | objects keep the order of their addresses |
| Collection.AfterCollection | src/olvm.c:1304-1330 | a collection leaves a sound heap with the register object as its newest one, the same graph below it, and only reachable objects in the collected area |
| Collection.BothCollected | src/olvm.c:1383-1393 | a full collection after a young one leaves only what could be reached before either of them |
| HeapGraph.SameGraphKeepsReachable | src/olvm.c:1224-1300 | no reachable object is lost by what keeps the graph |
| HeapGraph.SameGraphImageSound | src/olvm.c:1224-1300 | pointers still go down in any heap that holds the same graph and nothing else |
| HeapGraph.ReachesBack | src/olvm.c:1224-1300 | what can be reached in the heap that holds the same graph is the image of something that could be reached before |
| HeapObject.Heap.Collect | src/olvm.c:1304-1330 | one collection from the register object: same graph, sound heap, only reachable young objects, never more words than before |
| Moving.ShiftedGraph | src/olvm.c:1175-1217 | shifting every pointer by the distance the block moved gives the same graph at other addresses |
| HeapObject.Heap.FixPointers | src/olvm.c:1190-1213 | the walk over the moved heap changes the pointers of objects only, each by the same amount, and no raw words |
| HeapObject.Heap.ResizeHeap | src/olvm.c:1175-1217 | a heap of the size asked for (or the same one in a sandbox) with the whole graph relocated uniformly |
| HeapObject.NewSize | src/olvm.c:1357-1381 | the size changes if and only if more than half of the heap is wanted or less than a third; it grows until three quarters are wanted, or gives up a ninth, and what is wanted always fits |
| HeapObject.Heap.Rescale | src/olvm.c:1353-1383 | after growing, shrinking or keeping the size, the query is free above the register object, and the size is what suits the words in use and the query |
| HeapObject.Heap.Extend | src/olvm.c:1353-1398 | after a collection of the young area with a fifth of the heap free beside what is asked for nothing is moved; with less all of the heap is collected, and only what can be reached is kept; after a full collection the size suits what is in use |
| HeapObject.Heap.Gc | src/olvm.c:1304-1398 | full or generational, with at most one more collection: same graph, sound heap, nothing unreachable kept in what was collected, and outside the sandbox at least query + MEMPAD words free; unless a fifth is free besides, nothing unreachable is kept at all, and the size is what suits the words in use |
| HeapObject.Heap.New | src/olvm.c:911-926 | a new object of words that are held keeps the heap sound, as its newest object |
| HeapObject.PutGrown | src/olvm.c:911-926 | an object on top of a sound heap whose fields are held is one more object, and pointers still go down |
| HeapObject.Heap.SetRef | src/olvm.c:2664-2696 | copies the object with one field changed, old heap untouched and sound; position equal to the size changes nothing in the copy |
| HeapObject.ChangedCopy | src/olvm.c:2664-2696 | the copy may refer to anything the machine holds, and pointers still go down |
| HeapObject.Heap.SetRefInPlace | src/olvm.c:2698-2718 | pointers are refused, so pointers keep going down; storing an immediate keeps the heap sound exactly when the position is below the size or the object is the last one |
| MachineObject.Machine.SaveAndCollect | src/olvm.c:1812-1850 | the registers are stored as the newest object and the heap is collected from it |
| MachineObject.RootsKept | src/olvm.c:1812-1850 | what is read back into the registers is what was there, relocated, and holds the same graph |
| MachineObject.RootsOnly | src/olvm.c:1812-1850 | once the object that held the registers is dropped, nothing is kept in the collected area but what some register reaches |
| MachineObject.Machine.CollectGarbage | src/olvm.c:1812-1850 | collects exactly when there is not enough room or it is told to; afterwards each register holds what it held, relocated, over a sound heap with the room asked for, and nothing is kept in the collected area but what a register reaches |
| FiniteFunctions.Get | src/olvm.c:1857-1882 | the loop over heap nodes of all four layouts finds what the search in the tree they stand for finds |
| FiniteFunctions.FindIsBinding | src/olvm.c:1857-1882 | with all keys of one kind, get is exactly lookup in the finite map |
| FiniteFunctions.FindPresent | src/olvm.c:1857-1882 | a key that is bound is found if and only if comparing words leads the same way as the order of the tree at each node on the path |
| FiniteFunctions.FindAbsent | src/olvm.c:1857-1882 | for a key that is not bound the default is given, in any tree |
| FiniteFunctions.MixedKeysMissed | src/olvm.c:2724-2739 | a tree ordered by less? in which get does not find a bound key |
| FiniteFunctions.TreeKept | src/olvm.c:1265-1300 | a tree in the heap is, after a collection, the same tree with its words relocated |
| FiniteFunctions.SearchTreeKept | src/olvm.c:2724-2739 | a search tree stays one after a collection, as addresses keep their order |
| FiniteFunctions.FindKept | src/olvm.c:1857-1882 | get finds after a collection what it found before, relocated |
| FiniteFunctions.KeysKnown | src/olvm.c:1224-1300 | a collection that keeps a tree keeps all its keys |
| FiniteFunctions.FunctionKept | src/olvm.c:1857-1882 | a finite function in the heap survives a collection: it is there again, gives for each key what it gave, redirected, and a search tree stays one |
| FiniteFunctions.RegisterFunctionKept | src/olvm.c:1812-1850 | the same for a function, a key and a default in registers, across a collection of the machine |
| FiniteFunctions.GetAfterCollection | src/olvm.c:1812-1882 | collects exactly when there is not enough room, keeps what all registers hold, and get then gives just what it would have given before, redirected if there was a collection and unchanged if not |
| FiniteFunctions.MakeNode | src/olvm.c:2892-2922 | a node of either colour, with or without each child, has the given parts and leaves the rest of the heap alone |
| FiniteFunctions.Bind | src/olvm.c:2872-2890 | gives back the parts of a node of any layout, an absent child as the empty one |
| FiniteFunctions.Toggle | src/olvm.c:2925-2943 | a copy with the other colour and the same parts |
| Image.NumberMeans | src/olvm.c:4406-4424 | a number is what the low seven bits of its bytes stand for, first byte on top, up to the first byte below 128, as far as a word has room for it |
| Image.NumberRead | libraries/owl/fasl.scm:94-104 | a number that was written is read back, to its last byte |
| Image.NumberStarts | libraries/owl/fasl.scm:150-160 | a difference that is positive never starts with the byte that marks immediates |
| Image.ImageRead | libraries/owl/fasl.scm:171-226 | reading an image gives the objects it was made from and ends at its last byte |
| Image.ZeroDifference | src/olvm.c:4425-4436 | bytes that decode to a difference of zero |
| Loader.GetNat | src/olvm.c:4406-4424 | the loops of both passes read the same number and go on at the same byte, with a word's wrap-around |
| Loader.CountObject | src/olvm.c:4518-4543 | skips exactly one object and counts the words it will take, padding included |
| Loader.CountObjects | src/olvm.c:4511-4555 | the number of objects and the words they take, up to the zero that ends the image |
| Loader.DecodeField | src/olvm.c:4425-4436 | a field becomes an immediate or the address noted for the object it refers to (`ImmediateReads` says what the immediate is) |
| Loader.ImmediateReads | src/olvm.c:704-704 | the word of an immediate has the mark of one, the type in the six bits above, and the number above these, unless the number is too large for its 56 bits, where its low bits are kept |
| Loader.ConstantsLoaded | src/olvm.c:773-776 | false, true and the empty finite function are loaded as the words that the machine has for them |
| Loader.PackedByte | src/olvm.c:4470-4486 | the bytes of a raw object lie in its words in their order, lowest first, and zeros where there are no more |
| Loader.LoadNext | src/olvm.c:4463-4493 | one more object is noted and laid out behind the others, which stay as they are |
| Loader.Deserialize | src/olvm.c:4438-4495 | lays out exactly the objects of the image, ends at the byte where the count ended, and writes neither below the notes nor above the counted words |
| Loader.LoadedSound | src/olvm.c:4438-4495 | the loaded heap is one the collector can take if and only if no object refers to itself |
| Loader.Load | src/olvm.c:4736-4766 | loading stays inside the block that was allocated from the count, and gives a valid heap, in a block of twice the words in use and MEMPAD more |
| Loader.LoadEncoded | libraries/owl/fasl.scm:171-226 | what the encoder writes for objects that refer to objects before them is loaded as just these objects, each immediate with its type and number |
| Loader.LoadSaved | libraries/owl/fasl.scm:149-226 | a heap that is written and loaded is there again: the same objects in the same order, every immediate with its type and number, every reference to the object it was to, every byte in its place |
| Variadic.Pack | src/olvm.c:2375-2389 | too few arguments leave the registers alone; otherwise the extra ones become a list in their order |
| Variadic.Enter | lang/assemble.scm:317-352 | a chain of clauses enters the first that accepts the number of arguments, with the registers as they were passed but for packing; with none it is an arity error and nothing has changed |
| Variadic.Apply | src/olvm.c:2234-2272 | the explicit arguments move down and the items of the list follow, within the limit on registers |
| Variadic.SpreadPasses | src/olvm.c:2234-2272 | in either form, the function gets the continuation if there is one, the explicit arguments and the items, in order, and nothing else |
| Variadic.PackedReceives | src/olvm.c:2375-2389 | a clause receives its fixed arguments as passed and a list of exactly the others |
| Variadic.ProperPacks | src/olvm.c:2262-2387 | packing the items of a proper list gives that list |
| Variadic.ApplyThenPack | src/olvm.c:2234-2389 | either form of apply followed by packing, for any number of explicit arguments and of fixed formals: the formals receive the first arguments in order, and the rest list exactly the others |
| Variadic.SameListBack | src/olvm.c:2234-2389 | in either form, with as many explicit arguments as fixed formals, the rest list is the very list that was applied to |
| Rtl.LiveDecides | lang/register.scm:188-306 | what code does depends on its live registers only |
| Registers.RenameExact | lang/register.scm:68-141 | a register can be renamed if and only if no single result goes into it or into its new name, nothing is moved into it, and into its new name only what is in one of the two, and what is in the new name is moved nowhere else |
| Registers.RenameSound | lang/register.scm:68-141 | code in which one register was renamed does the same from registers that agree on what is live, with the value in the new place |
| Registers.RetardKeeps | lang/register.scm:188-306 | the map of uses covers every live register, and wishes are only for registers a result may go to |
| Registers.RetardSound | lang/register.scm:143-306 | moving results to where they are wanted does not change what the code returns or calls |
| Registers.AllocationSound | lang/register.scm:308-312 | register allocation keeps the meaning of code: the same return or call with the same values, from every state |
| Registers.RetardExact | lang/register.scm:188-312 | allocation fails if and only if something is moved to a register above the highest; no move of a register to itself is left |
| Registers.WishesFound | lang/register.scm:36-58 | every register that a value is moved to on some path is among those it would best be in |
| Registers.UsesExact | lang/register.scm:188-306 | of the registers that exist, just those are in use that the code reads before it puts something else there, a call one more than its arguments, and a list of results taken for nothing |
| Registers.ResultPlaced | lang/register.scm:143-282 | a result stays in its register only if it is wanted there, or each register that it is moved to, or wished for, is in use or cannot take its place; otherwise it goes to one that can |
| Registers.MovedOn | lang/register.scm:143-306 | a result that is moved and returned is computed in the register it is returned from, and the move is gone |
| Registers.HighMoved | lang/register.scm:43-55 | a result in a register that does not exist gets the lowest that is free |
| Registers.DeadResultClobbers | lang/register.scm:68-72 | a family of code in which a value is lost to a result that nobody needs |
| Calls.MovesOkExact | lang/compile.scm:276-283 | an order of moves is accepted if and only if doing them one by one is doing them all at once, whatever the registers hold |
| Calls.PermutationsAre | libraries/owl/lazy.scm:225-240 | the candidates are the rearrangements of the moves, every one of them, and the first is the moves as they are |
| Calls.SubsetsAre | libraries/owl/lazy.scm:254-275 | the candidates for saving are the choices of registers of the call, every one of them, smaller ones first |
| Calls.TrySavesSound | lang/compile.scm:324-339 | with any set of saves, the saves and moves that are emitted put the old value of every operand in its argument register |
| Calls.TrySavesExact | lang/compile.scm:312-339 | with a set of saves an order is found if and only if there is one, for calls so small that all orders are tried |
| Calls.FullSaveWorks | lang/compile.scm:341-352 | when every operand is saved, some order is accepted |
| Calls.FewestSaves | lang/compile.scm:341-352 | such a call saves as few operands as can be: with fewer saves there is no order |
| Calls.MakeJumpSound | lang/compile.scm:341-352 | a jump can always be compiled; the error "failed to compile call" cannot occur |
| Calls.JumpToSound | lang/compile.scm:354-377 | the register that is called holds the operator, even when arguments have to go where it was |
| Calls.CallAllSound | lang/compile.scm:354-427 | every call compiles to code that calls what the operator was with what the operands were |
| Assembler.TablesAgree | src/vm.scm:237-310 | the compiler's table of primitives asks for exactly as many operands and results as the machine reads; only for ff-apply it leaves open how many results there are, where the machine writes four |
| Assembler.CondRuns | lang/assemble.scm:261-305 | every jump lands exactly on the branch taken |
| Assembler.FusedMoves | lang/assemble.scm:146-150 | two moves in one instruction do what two instructions did |
| Assembler.AssembledRuns | lang/assemble.scm:142-306 | the bytes of a whole tree of code, followed by any others, make the machine's main loop return or call what the code does |
| Assembler.InRangeExact | lang/assemble.scm:142-306 | nothing is cut off if and only if all numbers fit their bytes |
| Assembler.LoadExact | lang/assemble.scm:227-255 | there is a load for exactly the numbers from -126 to 126, and it does what is meant if and only if the number is not negative |
| Assembler.AssembleExact | lang/assemble.scm:142-306 | there are bytes for code if and only if its registers and loads are in range where that is checked, numbers of operands are as in the table, and no jump is over 0xffff bytes or more; how many bytes there are can be told from the code, as can which moves are fused |
| Backend.CompiledRuns | lang/register.scm:308-312 | code without moves to registers that do not exist is allocated; if what it becomes has all in range it is assembled, and its bytes do what the register code did |
| Backend.AllocationInRange | lang/register.scm:143-306 | register allocation only moves results down, so numbers that fit their bytes still do |
| Backend.AllocationFits | lang/register.scm:143-306 | allocation makes no instruction invalid and no branch longer than its longest form was |
| Backend.InRangeRuns | lang/register.scm:308-312 | so code whose own numbers, operand counts and branch lengths are in range is allocated and assembled without an error, and its bytes do what it did |
| Closure.ClosurizeSucceeds | lang/closure.scm:38-134 | fails if and only if a primitive's continuation is neither a lambda nor a variable |
| Closure.ClosurizeUses | lang/closure.scm:38-134 | the list of used variables gains exactly the free variables, without repetition |
| Closure.ConversionMade | lang/closure.scm:136-219 | each closure holds its free variables once, and its offset selects its own code in the literals of its procedure, however many are added later |
| Closure.LiteralsExact | lang/closure.scm:136-219 | the literals of a procedure gain each constant that it uses and that is not small, once, and no others; earlier ones stay where they are |
| Literals.SmallIsLoaded | lang/closure.scm:26-31 | the constants that are not stored are those that the assembler has a load for, and -127, for which it has none |
| Closure.ConversionExact | lang/closure.scm:38-219 | what can be converted is converted as it should be if and only if no primitive continues with the variable _foo, for which the procedure put in its place does not pass its argument on |
| Closure.ForwardPassesOn | lang/closure.scm:56-66 | the procedure put in place of a continuation variable passes its argument on to that variable if and only if the variable is not _foo |
| Closure.ForwardGoes | lang/closure.scm:56-66 | given a result it goes, in two steps, to the continuation with that result; for _foo it calls the result with itself instead |
| Closure.EnterRelated | lang/closure.scm:75-134 | a procedure and its conversion are entered at the same clause of a case-lambda, or neither accepts |
| Closure.StepRelated | lang/closure.scm:38-219 | converted code follows each step of the original, in one step or three |
| Closure.BuiltRuns | lang/closure.scm:221-231 | a program without free variables and its built code end by passing the same results |
| Closure.FooIsLost | lang/closure.scm:56-66 | a program whose closure misses a variable, as its name is the one used for continuations |
| Cps.CpsFree | lang/cps.scm:24-241 | conversion frees no names, so no continuation is captured |
| Cps.CpsRuns | lang/cps.scm:32-241 | if an expression evaluates to a value, its conversion passes the converted value to its continuation, wherever it is moved |
| Cps.ProgramRuns | lang/cps.scm:219-272 | a converted program calls any continuation with what the program evaluates to |
| Middle.CpsPassed | lang/cps.scm:109-185 | in converted code primitives always have a lambda or a variable for their continuation, as closure conversion needs |
| Middle.BothRun | lang/closure.scm:221-231 | a program that evaluates to a value is, after CPS and closure conversion, closed code that passes that value to its continuation |
| Frontend.NamesDoNotMatter | lang/alpha.scm:39-93 | an expression with names evaluates, to every depth, to what it means when variables are the places of their binders |
| Frontend.NumberedSame | lang/alpha.scm:39-93 | after alpha conversion every variable has the binder it had, also when the numbers of generated names are all that is looked at |
| Frontend.ConvertedScoped | lang/alpha.scm:95-99 | a closed program is, after alpha conversion, as CPS conversion needs it: each name bound once and all below the first one that is generated next |
| Frontend.FrontendRuns | lang/eval.scm:120-128 | a closed program, with names as it likes, that means a value becomes, after alpha, CPS and closure conversion, closed code that passes that value to its continuation |
| Letrec.GrowIsReach | lang/fixedpoint.scm:359-369 | growing terminates with exactly the names that can be reached by dependences |
| Letrec.ClosureCloses | lang/fixedpoint.scm:356-375 | closed dependences are transitive and stay among the names |
| Letrec.RemoveKeepsClosed | lang/fixedpoint.scm:119-127 | they stay so when names that were bound are removed |
| Letrec.MutualGroup | lang/fixedpoint.scm:92-110 | the node with the fewest dependences and those it depends on all depend on each other, on the same names |
| Letrec.LoopFound | lang/fixedpoint.scm:92-104 | when everything left depends on something, one of the nodes with the fewest dependences depends on itself, so it is a lambda |
| Letrec.PickProgress | lang/fixedpoint.scm:79-117 | while something is left to bind, and only lambdas depend on themselves, something can be bound, as mutually recursive only lambdas, and partitions do not differ |
| Letrec.GenerateOrdered | lang/fixedpoint.scm:263-352 | each group depends on groups bound before it and, mutually, on itself only |
| Letrec.GenerateBindsAll | lang/fixedpoint.scm:263-352 | every name is bound exactly once |
| Letrec.EliminationSucceeds | lang/fixedpoint.scm:263-375 | everything can be bound, as recursive functions only lambdas, if and only if no other value depends on itself; then neither error occurs, every name is bound once, and the groups are in an order that works |
| Recursion.Runs | lang/fixedpoint.scm:142-233 | an expression that gives a value in the scope of a group gives, rewritten, what the value has become: the same datum, a rewritten function, or a wrapper that calls the longer function |
| Recursion.ReadyGroup | lang/fixedpoint.scm:235-246 | when a function of a group is called with what it depends on, its rewritten body has everything that it needs |
| Recursion.CarryAgree | lang/fixedpoint.scm:175-230 | what is rewritten in an expression depends on its free names only |
| Recursion.CarriedExactly | lang/fixedpoint.scm:175-230 | where nothing is captured, calls can be rewritten if and only if each call of a function of the group has as many operands as that has formals |
| Groups.MutualKept | lang/fixedpoint.scm:320-351 | mutually recursive functions, bound as longer functions and wrappers: the body gives what it gives with the group in scope |
| Groups.SimpleKept | lang/fixedpoint.scm:278-318 | simply recursive functions, bound as longer functions: the body, with its calls rewritten, gives what it gives with them in scope |
| Groups.CarryEachIs | lang/fixedpoint.scm:142-173 | rewriting the body for one function after the other is rewriting it for all at once |
| Groups.MutualProgram | lang/fixedpoint.scm:320-351 | a program that is such a group with a body evaluates to the same number or primitive, without any recursive binding |
| Groups.SimpleProgram | lang/fixedpoint.scm:278-318 | the same for simply recursive functions |
| Groups.ApartOk | lang/fixedpoint.scm:175-246 | when no formal and no binder in the functions has the name of one of them, and the numbers of operands are right, nothing is captured |
| Groups.FormalCaptured | lang/fixedpoint.scm:235-246 | three functions, one with a formal that has the name of another: the program gives 0, and 7 when it is rewritten |
| Alpha.GensymIdGen | lang/gensym.scm:23-39 | a generated name tells its number, so different numbers give different names |
| Alpha.GensymIdExact | lang/gensym.scm:23-39 | a name is taken for a generated one if and only if it is a g and at least one digit, and nothing else |
| Alpha.MaxIdBounds | lang/gensym.scm:41-82 | the first free number is above all generated names that were looked at |
| Alpha.BoundIsNew | lang/alpha.scm:25-93 | the new binders are the generated names from the first free one on, in order and without gaps |
| Alpha.AlphaEquivalent | lang/alpha.scm:39-93 | the result has the same de Bruijn form |
| Alpha.ClosedConverts | lang/alpha.scm:39-93 | conversion succeeds if and only if the expression is closed |
| Alpha.NamesBelow | lang/gensym.scm:41-88 | all generated names of a program are older than the first free one if and only if those that were not looked at are |
| Alpha.AlphaConverted | lang/alpha.scm:95-99 | conversion of a program succeeds if and only if it is closed; it then becomes the same program with binders pairwise different; they are newer than every generated name of the program if and only if the generated names among the formals after one named quote are older than the first free name |
| Alpha.AllNewer | lang/alpha.scm:95-99 | without a formal named quote the binders are newer than every generated name of the program |
| Alpha.HiddenNameReused | lang/gensym.scm:41-51 | a program in which a new binder gets a name that is already there |
| Macro.MatchKeeps | lang/macro.scm:93-157 | a match adds just the pattern's variables and keeps every earlier binding |
| Macro.RepeatUndone | lang/macro.scm:118-148 | whatever number of items backtracking settles on, as many copies with the values in their order give back the form |
| Macro.RemainsSize | lang/macro.scm:93-212 | each item that is left out makes a form smaller, so nothing else can make up for it |
| Macro.MatchThenRewrite | lang/macro.scm:93-212 | when a form matches a pattern, rewriting the pattern with what was found gives the form without the items of bodies that have no variables; so it gives back the form if and only if there are none |
| Macro.RoundTrip | lang/macro.scm:93-212 | when every body has a variable, rewriting gives back every form that matches |
| Macro.EmptiestMatched | lang/macro.scm:93-157 | on a form without items, matching is an error just when a variable is used plainly after an ellipsis, and succeeds otherwise |
| Macro.BreaksExactly | lang/macro.scm:93-163 | for a pattern without nested ellipses there is a form that makes matching an error if and only if some variable is used plainly after it was used under an ellipsis |
| Macro.PatternWorks | lang/macro.scm:93-163 | when variables under an ellipsis are not repeated matching succeeds or fails; it never asks for a value that is not there or pushes to an unknown variable |
| Macro.MatchesExactly | lang/macro.scm:93-163 | a form matches a pattern, with ellipses nested or not, whose variables are not repeated, nor used plainly after an ellipsis under an ellipsis, if and only if it has its shape: any number of items for an ellipsis, each of the shape of its body; matching is then never an error |
| Macro.PlainMatchesExactly | lang/macro.scm:93-163 | a pattern without ellipses, with variables repeated as it likes, matches exactly the forms that it becomes when its variables are given values, the same for each use of one |
| Macro.RepetitionsIs | lang/macro.scm:166-181 | there are as many repetitions as the shortest list of more than one value is long, whatever variables with one value there are besides; none if some variable has no value, and one if each has one |
| Macro.EllipsisItems | lang/macro.scm:166-212 | a body without ellipses of its own, under one, is rewritten to a list of just these items: the i-th is the body with the i-th value of each variable that has many and the only value of the others |
| Macro.RepetitionsSame | lang/macro.scm:170-181 | when every variable has n values there are n repetitions |
| Macro.LiteralItemsLost | lang/macro.scm:170-212 | a pattern and a form where the round trip fails, for a body without variables |
| Macro.RepeatedVariableBreaks | lang/macro.scm:104-110 | a pattern and a form where matching is an error, for a repeated variable |
| Macro.NestedVariableBreaks | lang/macro.scm:104-148 | a pattern and a form where matching is an error, for a variable after an ellipsis under an ellipsis |
| Queues.HalfRevKeeps | libraries/owl/queue.scm:45-50 | splitting a reversed list keeps the elements and their order |
| Queues.SnocAdds | libraries/owl/queue.scm:61-64 | adds at the end |
| Queues.UnconsTakes | libraries/owl/queue.scm:66-78 | takes the first element, if there is one, and keeps the others in order |
| Threads.StepPlaces | lang/threading.scm:112-322 | a system call ends the threads it is to end, a forked thread is then in one place, and every other thread is in as many places as before |
| Threads.StepUnique | lang/threading.scm:112-322 | so each thread is still in one place at most: to run, done for this round, or waiting for mail |
| Threads.RunKeeps | lang/threading.scm:439-464 | over whole runs, a thread that is not ended stays in exactly one place |
| Threads.RunPlaces | lang/threading.scm:439-464 | and a thread that is not forked again is gone if and only if it has been ended or was not there |
| Threads.RunUnique | lang/threading.scm:439-464 | no thread is ever in two places |
| Threads.CallerGoes | lang/threading.scm:112-322 | how the caller goes on: after a slice with its new state, otherwise with the answer to its call, as the list of the others that run, whether there are any, or the oldest mail; it waits for mail if there is none |
| Threads.OthersGoOn | lang/threading.scm:41-322 | every other thread goes on as it was, unless it waits and something is sent to it, which wakes it with the first of that |
| Threads.ForkStarts | lang/threading.scm:142-163 | a forked thread starts with its thunk, has its parent for subscriber if and only if it is linked, and an empty mailbox if and only if it is to have one |
| Threads.RoundServes | lang/threading.scm:439-464 | in a round in which all run to the end of their slices, each runs once, in the order of the list |
| Threads.TurnKept | lang/threading.scm:112-322 | an answer does not cost a thread its turn; only a forked thread goes first |
| Threads.HandlePending | lang/threading.scm:41-322 | a system call adds to what is pending for a thread just what it sends to it or the thread puts back, at the end |
| Threads.MailConserved | lang/threading.scm:41-464 | over any run, what a thread received and what is still queued is what was queued, then what was sent and what it put back, in order |
| Threads.InOrder | lang/threading.scm:41-464 | a thread that puts nothing back gets its mail first in, first out, whatever the others do |
| Threads.AcceptReorders | libraries/owl/interop.scm:97-104 | accept-mail gives the first mail that is wanted; those it skipped end up in their order, but behind all the others |
| Threads.StepOneSubscriber | lang/threading.scm:150-175 | a thread never has more than one subscriber, its parent |
| Threads.EndTold | lang/threading.scm:73-140 | a thread that ends is gone, and its subscriber gets exactly one notice, after all earlier mail |
| Threads.EndSentOnce | lang/threading.scm:73-464 | over any run in which a thread ends, exactly one notice of it is sent to its subscriber and none to anybody else, however often it is killed again |
| Threads.EndHeardOnce | lang/threading.scm:41-464 | what the subscriber received and what is still queued for it hold one notice of the end, and one more for each time that it put the notice back |
| Threads.GoneSilent | lang/threading.scm:73-98 | nothing more is sent in the name of a thread that is gone |

## Left out

- HeapObject.Heap.Realloc: the new block is always a fresh one at a place that is a parameter; a failing `realloc` and the jump out of the machine are not modelled.
- HeapObject.Heap.Gc: in the sandbox the heap cannot grow, so nothing is promised about free words.
- HeapObject.Heap.SetRef: stores into raw objects, which are by byte, are not modelled.
- HeapObject.Heap.SetRefInPlace: stores into raw objects, which are by byte, are not modelled.
- HeapObject.Heap.New: the bounds of the heap are a precondition; the checks between instructions are not modelled.
- FiniteFunctions.Get: the `assert` on a header of another size is excluded by requiring a tree of the four layouts.
- Loader.Deserialize: the bytes of raw objects are stored a word at a time, and words have eight bytes; how many bytes of padding a raw header counts is not modelled; a difference that leads before the first object is a precondition; images that run off their end are not modelled.
- Loader.Load: sizes are below 2^31 and types below 64, as the encoder writes them; the check for numbers that overflow a word only prints a message, and numbers wrap around.
- Image.ImageRead: how objects are collected and numbered from a root is not part of this model; the objects are a list.
- Variadic.Enter: pairs are values here, not heap objects; the check for room before packing is not modelled.
- Variadic.Apply: what the registers hold when there are too many arguments is not stated, as the machine stops.
- Registers.AllocationSound: `Orderly` is sufficient, not necessary: it asks that what a list of results writes is not written before and is needed afterwards unless no result may go there; `DeadResultClobbers` shows why.  The converse fails: what is needed is decided by the text of the code, so a value that is clobbered in a branch that is never taken counts, and so does one that is clobbered by a wish made in another branch although the two are never run together.
- Assembler.AssembledRuns: for code in `Regular` shapes; RUN, SYSCALL, floating point, and the two- and three-way comparisons of the allocator are left to the parameter `Ops`; closures of more than 253 variables are excluded.
- Backend.CompiledRuns: that the code is in range after allocation is asked for; it is when the code before it is (`Backend.InRangeRuns`), whose bound on branches counts no move as fused.
- Backend.InRangeRuns: branches are below 0xffff bytes with no move fused, as allocation may drop the moves that are fused with others; code with a longer branch that fusing makes short enough is not covered.
- Calls.FewestSaves: for calls of at most six operands; with more, not all orders are tried (`TRY_N_PERMS`), so more may be saved than needed.
- Calls.CallAllSound: operands and operator are in registers already; how `rtl-args` loads them from closures and literals is not modelled.
- Closure.BuiltRuns: primitives compute on numbers and have one result; `eq?` of two procedures or two pairs is not decided; the layout of closures in memory is not modelled.
- Cps.ProgramRuns: programs of variables, values, fixed lambdas, calls and ifeq whose operands are variables, values or calls; case-lambda, variadic lambdas, values and the primitives that bind several results are not covered.
- Frontend.FrontendRuns: for the forms that CPS conversion is followed for (`Covered`); letrec elimination, which comes before, is not chained to it.
- Letrec.EliminationSucceeds: which names are bound together and in what order; for a value that is no lambda and depends on itself the code goes on as if it were one, or fails, and what it makes of it is not modelled.
- Groups.MutualKept: one group at a time, over functions of the forms above; that groups one inside the other bind what all bindings together do is not stated.
- Alpha.AlphaConverted: what the expander leaves in quoted data is not looked at, as in the code.
- Macro.MatchThenRewrite: patterns without wildcards, with ellipses that are not nested, and variables under an ellipsis not repeated.
- Macro.BreaksExactly: ellipses that are not nested.
- Threads.MailConserved: the calls 10, which hands all threads to a signal handler, 11, which replaces the whole state, and 17, which takes a thread out of the state as a value or puts any such value in, are not modelled; fork ids are fresh.
- Threads.StepUnique: a failing step of a parallel computation (22), which ends the controller, is not modelled.
- Threads.EndTold: what threads compute between system calls is a parameter.
- System calls of the machine, sockets, files, dlopen, the sandbox and `main`: the operating system's.
- The foreign function interface and floating point.
- The reader, the evaluator, environments and library loading are not modelled.
- Bytecode interning (`lang/assemble.scm`), a search tree in a server thread, is not modelled.
- What single arithmetic instructions compute is a parameter.
