/** Finite functions: search trees whose keys are words, kept in heap objects of four layouts. */
module FiniteFunctions {
  import opened HeapModel
  import opened HeapGraph
  import opened HeapObject
  import opened MachineObject
  import opened Wrappers

  const TFF := 24
  const FFRIGHT := 1
  const FFRED := 2

  /** The bytes of a machine word as a number; a pointer is a multiple of the word size. */
  function Bits(w: Word): int {
    match w
    case Imm(v) => v
    case Ref(a) => 8 * a
    case Thread(a) => 8 * a + 1
    case Header(_, _, _) => 0
  }

  /** less?, by which trees are built: immediates come before pointers. */
  predicate Less(a: Word, b: Word) {
    if a.Imm? == b.Imm? then Bits(a) < Bits(b) else a.Imm?
  }

  datatype Tree = Leaf | Node(l: Tree, key: Word, value: Word, r: Tree)

  ghost predicate IsNode(h: seq<Word>, o: int) {
    && 0 <= o < |h| && h[o].Header? && !h[o].raw && TFF <= h[o].typ < TFF + 4
    && 3 <= h[o].size <= 5 && o + h[o].size <= |h|
  }

  /** The left and right subtrees as the four layouts encode them. */
  ghost function LeftOf(h: seq<Word>, o: int): Word
    requires IsNode(h, o)
  {
    if h[o].size == 5 then h[o+3]
    else if h[o].size == 4 && h[o].typ % 2 != FFRIGHT then h[o+3]
    else IEMPTY
  }

  ghost function RightOf(h: seq<Word>, o: int): Word
    requires IsNode(h, o)
  {
    if h[o].size == 5 then h[o+4]
    else if h[o].size == 4 && h[o].typ % 2 == FFRIGHT then h[o+3]
    else IEMPTY
  }

  /** The tree that the word w stands for, if it does. */
  ghost function Load(h: seq<Word>, w: Word): Option<Tree>
    decreases if w.Ref? && w.adr >= 0 then w.adr + 1 else 0
  {
    if w == IEMPTY then Some(Leaf)
    else if !w.Ref? || !IsNode(h, w.adr) then None
    else
      var o, l, r := w.adr, LeftOf(h, w.adr), RightOf(h, w.adr);
      if (l.Ref? && l.adr >= o) || (r.Ref? && r.adr >= o) then None
      else
        var lt, rt := Load(h, l), Load(h, r);
        if lt.Some? && rt.Some? then Some(Node(lt.value, h[o+1], h[o+2], rt.value)) else None
  }

  /** What the walk of `get` finds. */
  function Find(t: Tree, key: Word, def: Word): Word {
    match t
    case Leaf => def
    case Node(l, k, v, r) =>
      if k == key then v else if Bits(key) < Bits(k) then Find(l, key, def) else Find(r, key, def)
  }

  function Keys(t: Tree): set<Word> {
    match t
    case Leaf => {}
    case Node(l, k, _, r) => Keys(l) + {k} + Keys(r)
  }

  /** The abstract map. */
  function Bindings(t: Tree): map<Word, Word> {
    match t
    case Leaf => map[]
    case Node(l, k, v, r) => Bindings(l) + Bindings(r) + map[k := v]
  }

  ghost predicate SearchTree(t: Tree) {
    match t
    case Leaf => true
    case Node(l, k, _, r) =>
      && SearchTree(l) && SearchTree(r)
      && (forall x :: x in Keys(l) ==> Less(x, k))
      && (forall x :: x in Keys(r) ==> Less(k, x))
  }

  /** Along the way to `key`, comparing raw words agrees with less?. */
  predicate PathAgrees(t: Tree, key: Word) {
    match t
    case Leaf => true
    case Node(l, k, _, r) =>
      k == key || ((Bits(key) < Bits(k) <==> Less(key, k)) && PathAgrees(if Less(key, k) then l else r, key))
  }

  lemma {:induction false} BindingKeys(t: Tree)
    ensures Bindings(t).Keys == Keys(t)
  {
    match t
    case Leaf =>
    case Node(l, k, v, r) =>
      BindingKeys(l);
      BindingKeys(r);
  }

  /** Nothing is found where the key is not. */
  lemma {:induction false} FindAbsent(t: Tree, key: Word, def: Word)
    requires key !in Keys(t)
    ensures Find(t, key, def) == def
  {
    match t
    case Leaf =>
    case Node(l, k, v, r) =>
      FindAbsent(l, key, def);
      FindAbsent(r, key, def);
  }

  /** The half of the tree in which less? says that the key must be. */
  lemma BindingSide(t: Tree, key: Word) returns (side: Tree, other: Tree)
    requires SearchTree(t) && key in Bindings(t) && t.key != key
    ensures side == (if Less(key, t.key) then t.l else t.r) && other == (if Less(key, t.key) then t.r else t.l)
    ensures SearchTree(side) && key in Bindings(side) && Bindings(side)[key] == Bindings(t)[key]
    ensures key !in Keys(other)
  {
    BindingKeys(t.l);
    BindingKeys(t.r);
    side, other := if Less(key, t.key) then t.l else t.r, if Less(key, t.key) then t.r else t.l;
  }

  lemma {:induction false} FindAlong(t: Tree, key: Word, def: Word)
    requires SearchTree(t) && key in Bindings(t) && PathAgrees(t, key)
    ensures Find(t, key, def) == Bindings(t)[key]
  {
    if t.key != key {
      var side, other := BindingSide(t, key);
      FindAlong(side, key, def);
    }
  }

  lemma {:induction false} FindAstray(t: Tree, key: Word) returns (def: Word)
    requires SearchTree(t) && key in Bindings(t) && !PathAgrees(t, key)
    ensures Find(t, key, def) != Bindings(t)[key]
  {
    var side, other := BindingSide(t, key);
    if Bits(key) < Bits(t.key) <==> Less(key, t.key) {
      def := FindAstray(side, key);
    } else {
      def := if Bindings(t)[key] == IFALSE then ITRUE else IFALSE;
      FindAbsent(other, key, def);
    }
  }

  /** `get` on a tree built with less? returns the binding of a key, whatever the default, exactly
      when comparing raw words agrees with less? all the way down to the key. */
  lemma FindPresent(t: Tree, key: Word)
    requires SearchTree(t) && key in Bindings(t)
    ensures PathAgrees(t, key) <==> forall def :: Find(t, key, def) == Bindings(t)[key]
  {
    if PathAgrees(t, key) {
      forall def ensures Find(t, key, def) == Bindings(t)[key] {
        FindAlong(t, key, def);
      }
    } else {
      var def := FindAstray(t, key);
    }
  }

  /** In particular when the keys are all pointers, or all immediates. */
  lemma {:induction false} SameKindAgrees(t: Tree, key: Word)
    requires forall k :: k in Keys(t) ==> k.Imm? == key.Imm?
    ensures PathAgrees(t, key)
  {
    match t
    case Leaf =>
    case Node(l, k, v, r) =>
      assert k in Keys(t);
      SameKindAgrees(if Less(key, k) then l else r, key);
  }

  lemma FindIsBinding(t: Tree, key: Word, def: Word)
    requires SearchTree(t) && forall k :: k in Keys(t) ==> k.Imm? == key.Imm?
    ensures Find(t, key, def) == if key in Bindings(t) then Bindings(t)[key] else def
  {
    BindingKeys(t);
    if key in Bindings(t) {
      SameKindAgrees(t, key);
      FindPresent(t, key);
    } else {
      FindAbsent(t, key, def);
    }
  }

  /** A key that is in a tree of mixed keys, and is not found: the immediate 1 (as a word, 258) is
      less than any pointer, but not than the pointer to word 10, which is the number 80. */
  lemma MixedKeysMissed()
    ensures var t := Node(Node(Leaf, Imm(258), ITRUE, Leaf), Ref(10), ITRUE, Leaf);
            SearchTree(t) && Bindings(t)[Imm(258)] == ITRUE && Find(t, Imm(258), IFALSE) == IFALSE
  {
    var l := Node(Leaf, Imm(258), ITRUE, Leaf);
    var t := Node(l, Ref(10), ITRUE, Leaf);
    assert Keys(l) == {Imm(258)};
    assert SearchTree(l) && SearchTree(t);
    assert Bindings(l) == map[Imm(258) := ITRUE];
  }

  // ---- Collections ----

  ghost function Image(phi: map<int, int>, t: Tree): Tree {
    match t
    case Leaf => Leaf
    case Node(l, k, v, r) => Node(Image(phi, l), Follow(phi, k), Follow(phi, v), Image(phi, r))
  }

  /** Pointers that phi knows about. */
  ghost predicate Known(phi: map<int, int>, w: Word) {
    w.Imm? || (w.Ref? && w.adr in phi)
  }

  /** Keeping the order of addresses keeps less?. */
  lemma LessKept(a: Area, r: Word, a': Area, r': Word, phi: map<int, int>, x: Word, y: Word)
    requires a.Tidy() && a'.Tidy() && SameGraph(a, r, a', r', phi)
    requires Known(phi, x) && Known(phi, y)
    ensures Less(Follow(phi, x), Follow(phi, y)) == Less(x, y)
    ensures Follow(phi, x) == Follow(phi, y) <==> x == y
    ensures x.Imm? == y.Imm? ==> (Bits(Follow(phi, x)) < Bits(Follow(phi, y)) <==> Bits(x) < Bits(y))
  {
  }

  ghost predicate CarriedField(phi: map<int, int>, o: int, w: Word) {
    w.Ref? ==> o in phi && w.adr in phi && w.adr < o && phi[w.adr] < phi[o]
  }

  /** A node is still a node of the same layout, with its fields redirected. */
  lemma NodeKept(a: Area, r: Word, a': Area, r': Word, phi: map<int, int>, o: int)
    requires Sound(a) && a'.Tidy() && SameGraph(a, r, a', r', phi) && o in phi && IsNode(a.h, o)
    ensures IsNode(a'.h, phi[o])
    ensures LeftOf(a'.h, phi[o]) == Follow(phi, LeftOf(a.h, o)) && RightOf(a'.h, phi[o]) == Follow(phi, RightOf(a.h, o))
    ensures a'.h[phi[o]+1] == Follow(phi, a.h[o+1]) && a'.h[phi[o]+2] == Follow(phi, a.h[o+2])
    ensures CarriedField(phi, o, LeftOf(a.h, o)) && CarriedField(phi, o, RightOf(a.h, o))
    ensures Known(phi, a.h[o+1]) || a.h[o+1].Header?
  {
    assert SameObject(a.h, a'.h, phi, o) && SoundObject(a.h, a.Objects(), o);
    var n := a.h[o].size;
    assert SameWord(a.h, a'.h, phi, o, 1) && SameWord(a.h, a'.h, phi, o, 2);
    assert n > 3 ==> SameWord(a.h, a'.h, phi, o, 3);
    assert n > 4 ==> SameWord(a.h, a'.h, phi, o, 4);
    assert !a.h[o+1].Thread?;
  }

  lemma LoadNode(h: seq<Word>, o: int, lt: Tree, rt: Tree)
    requires IsNode(h, o)
    requires LeftOf(h, o).Ref? ==> LeftOf(h, o).adr < o
    requires RightOf(h, o).Ref? ==> RightOf(h, o).adr < o
    requires Load(h, LeftOf(h, o)) == Some(lt) && Load(h, RightOf(h, o)) == Some(rt)
    ensures Load(h, Ref(o)) == Some(Node(lt, h[o+1], h[o+2], rt))
  {
  }

  /** A tree is carried over with its keys and values redirected. */
  lemma {:induction false} TreeKept(a: Area, r: Word, a': Area, r': Word, phi: map<int, int>, w: Word)
    requires Sound(a) && a'.Tidy() && SameGraph(a, r, a', r', phi)
    requires Known(phi, w) && Load(a.h, w).Some?
    ensures Load(a'.h, Follow(phi, w)) == Some(Image(phi, Load(a.h, w).value))
    decreases if w.Ref? && w.adr >= 0 then w.adr + 1 else 0
  {
    hide Sound, SameGraph;
    if w.Ref? {
      var o := w.adr;
      NodeKept(a, r, a', r', phi, o);
      var l, rr := LeftOf(a.h, o), RightOf(a.h, o);
      TreeKept(a, r, a', r', phi, l);
      TreeKept(a, r, a', r', phi, rr);
      LoadNode(a'.h, phi[o], Image(phi, Load(a.h, l).value), Image(phi, Load(a.h, rr).value));
    }
  }

  /** A collection that knows a tree knows all its keys. */
  lemma {:induction false} KeysKnown(a: Area, r: Word, a': Area, r': Word, phi: map<int, int>, w: Word, k: Word)
    requires Sound(a) && a'.Tidy() && SameGraph(a, r, a', r', phi)
    requires Known(phi, w) && Load(a.h, w).Some? && k in Keys(Load(a.h, w).value)
    ensures Known(phi, k) || k.Header?
    decreases if w.Ref? && w.adr >= 0 then w.adr + 1 else 0
  {
    hide Sound, SameGraph;
    var o := w.adr;
    NodeKept(a, r, a', r', phi, o);
    var l, rr := LeftOf(a.h, o), RightOf(a.h, o);
    if k in Keys(Load(a.h, l).value) {
      KeysKnown(a, r, a', r', phi, l, k);
    } else if k in Keys(Load(a.h, rr).value) {
      KeysKnown(a, r, a', r', phi, rr, k);
    }
  }

  /** A search tree is still one after a collection. */
  lemma {:induction false} SearchTreeKept(a: Area, r: Word, a': Area, r': Word, phi: map<int, int>, t: Tree)
    requires a.Tidy() && a'.Tidy() && SameGraph(a, r, a', r', phi)
    requires SearchTree(t) && forall k :: k in Keys(t) ==> Known(phi, k)
    ensures SearchTree(Image(phi, t))
  {
    match t
    case Leaf =>
    case Node(l, k, v, rt) =>
      assert k in Keys(t);
      SearchTreeKept(a, r, a', r', phi, l);
      SearchTreeKept(a, r, a', r', phi, rt);
      forall y | y in Keys(Image(phi, l)) ensures Less(y, Follow(phi, k)) {
        var x := ImageKey(phi, l, y);
        LessKept(a, r, a', r', phi, x, k);
      }
      forall y | y in Keys(Image(phi, rt)) ensures Less(Follow(phi, k), y) {
        var x := ImageKey(phi, rt, y);
        LessKept(a, r, a', r', phi, k, x);
      }
  }

  lemma {:induction false} ImageKey(phi: map<int, int>, t: Tree, y: Word) returns (x: Word)
    requires y in Keys(Image(phi, t))
    ensures x in Keys(t) && y == Follow(phi, x)
  {
    if y == Follow(phi, t.key) {
      x := t.key;
    } else if y in Keys(Image(phi, t.l)) {
      x := ImageKey(phi, t.l, y);
    } else {
      x := ImageKey(phi, t.r, y);
    }
  }

  /** Looking up the redirected key afterwards finds the redirected value. */
  lemma {:induction false} FindKept(a: Area, r: Word, a': Area, r': Word, phi: map<int, int>, t: Tree, key: Word,
          def: Word)
    requires a.Tidy() && a'.Tidy() && SameGraph(a, r, a', r', phi)
    requires forall k :: k in Keys(t) ==> Known(phi, k) && k.Imm? == key.Imm?
    requires Known(phi, key)
    ensures Find(Image(phi, t), Follow(phi, key), Follow(phi, def)) == Follow(phi, Find(t, key, def))
  {
    match t
    case Leaf =>
    case Node(l, k, v, rt) =>
      assert k in Keys(t);
      LessKept(a, r, a', r', phi, k, key);
      LessKept(a, r, a', r', phi, key, k);
      FindKept(a, r, a', r', phi, l, key, def);
      FindKept(a, r, a', r', phi, rt, key, def);
  }

  /** The keys are all pointers or all immediates, as `key` is. */
  ghost predicate OneKind(t: Tree, key: Word) {
    (key.Imm? || key.Ref?) && forall k :: k in Keys(t) ==> (k.Imm? || k.Ref?) && k.Imm? == key.Imm?
  }

  /** A finite function survives a collection: it is there again, what it gives for a key is what it gave,
      redirected, and a search tree stays one. */
  lemma FunctionKept(a: Area, r: Word, a': Area, r': Word, phi: map<int, int>, w: Word, key: Word, def: Word)
    requires Sound(a) && a'.Tidy() && SameGraph(a, r, a', r', phi) && Known(phi, w) && Known(phi, key)
    requires Load(a.h, w).Some? && OneKind(Load(a.h, w).value, key)
    ensures Load(a'.h, Follow(phi, w)).Some?
    ensures var t, t' := Load(a.h, w).value, Load(a'.h, Follow(phi, w)).value;
            && Find(t', Follow(phi, key), Follow(phi, def)) == Follow(phi, Find(t, key, def))
            && (SearchTree(t) ==> SearchTree(t'))
  {
    assert a.Tidy();
    hide Sound, SameGraph;
    var t := Load(a.h, w).value;
    TreeKept(a, r, a', r', phi, w);
    forall k | k in Keys(t) ensures Known(phi, k) {
      KeysKnown(a, r, a', r', phi, w, k);
    }
    FindKept(a, r, a', r', phi, t, key, def);
    if SearchTree(t) { SearchTreeKept(a, r, a', r', phi, t); }
  }

  /** The same for registers: the function is in register i, the key in j and the default in d. */
  lemma RegisterFunctionKept(a: Area, ws: seq<Word>, a': Area, ws': seq<Word>, phi: map<int, int>, i: nat, j: nat,
                             d: nat)
    requires Sound(a) && a'.Tidy() && RegistersKept(a, ws, a', ws', phi) && i < |ws| && j < |ws| && d < |ws|
    requires Load(a.h, ws[i]).Some? && OneKind(Load(a.h, ws[i]).value, ws[j])
    ensures Load(a'.h, ws'[i]).Some?
    ensures var t, t' := Load(a.h, ws[i]).value, Load(a'.h, ws'[i]).value;
            && Find(t', ws'[j], ws'[d]) == Follow(phi, Find(t, ws[j], ws[d]))
            && (SearchTree(t) ==> SearchTree(t'))
  {
    assert SameGraph(a, ws[i], a', ws'[i], phi) && SameGraph(a, ws[j], a', ws'[j], phi);
    assert SameGraph(a, ws[d], a', ws'[d], phi);
    FunctionKept(a, ws[i], a', ws'[i], phi, ws[i], ws[j], ws[d]);
  }

  /** `get` on registers, with a collection before it: the collection changes what is found only as it changes
      everything else. */
  method GetAfterCollection(machine: Machine, ws: nat, place: nat, i: nat, j: nat, d: nat)
    returns (done: bool, value: Word, ghost phi: map<int, int>)
    requires machine.Valid() && machine.heap.fp + NR + CR + 3 < machine.heap.end + GCPAD
    requires i < NR + CR && j < NR + CR && d < NR + CR && Load(machine.heap.mem[..], machine.R[i]).Some?
    requires OneKind(Load(machine.heap.mem[..], machine.R[i]).value, machine.R[j])
    modifies machine, machine.R, machine.heap, machine.heap.mem
    ensures machine.Valid()
    ensures done == (ws == 0 || old(machine.heap.fp) + ws >= old(machine.heap.end) - MEMPAD)
    ensures done ==> RegistersKept(old(machine.heap.Whole()), old(machine.Roots()), machine.heap.Whole(),
                                   machine.Roots(), phi)
    ensures !done ==> machine.Roots() == old(machine.Roots()) && machine.heap.mem[..] == old(machine.heap.mem[..])
    ensures var found := old(Find(Load(machine.heap.mem[..], machine.R[i]).value, machine.R[j], machine.R[d]));
            value == if done then Follow(phi, found) else found
  {
    ghost var a, regs := machine.heap.Whole(), machine.Roots();
    assert regs[i] == machine.R[i] && regs[j] == machine.R[j] && regs[d] == machine.R[d];
    done, phi := machine.CollectGarbage(ws, place);
    ghost var regs' := machine.Roots();
    assert regs'[i] == machine.R[i] && regs'[j] == machine.R[j] && regs'[d] == machine.R[d];
    if done {
      RegisterFunctionKept(a, regs, machine.heap.Whole(), regs', phi, i, j, d);
    }
    value := Get(machine.heap, machine.R[i], machine.R[j], machine.R[d]);
  }

  // ---- The instructions ----

  /** One comparison of the lookup. */
  lemma FindStep(h: seq<Word>, w: Word, key: Word, def: Word)
    requires w != IEMPTY && Load(h, w).Some?
    ensures w.Ref? && IsNode(h, w.adr)
    ensures h[w.adr+1] == key ==> Find(Load(h, w).value, key, def) == h[w.adr+2]
    ensures h[w.adr+1] != key ==>
              var next := if Bits(key) < Bits(h[w.adr+1]) then LeftOf(h, w.adr) else RightOf(h, w.adr);
              && Load(h, next).Some? && (next.Ref? ==> next.adr < w.adr)
              && Find(Load(h, w).value, key, def) == Find(Load(h, next).value, key, def)
  {
  }

  /** The lookup behind the application of a finite function. */
  method Get(heap: Heap, ff: Word, key: Word, def: Word) returns (value: Word)
    requires heap.Valid() && Load(heap.mem[..], ff).Some?
    ensures value == Find(Load(heap.mem[..], ff).value, key, def)
  {
    hide Sound, Load, Find;
    ghost var h := heap.mem[..];
    var node := ff;
    while node != IEMPTY
      invariant Load(h, node).Some?
      invariant Find(Load(h, node).value, key, def) == Find(Load(h, ff).value, key, def)
      decreases if node.Ref? then node.adr + 1 else 0
    {
      FindStep(h, node, key, def);
      var o := node.adr;
      var found := heap.mem[o + 1];
      if found == key {
        return heap.mem[o + 2];
      }
      var hdr := heap.mem[o];
      if hdr.size == 5 {
        node := if Bits(key) < Bits(found) then heap.mem[o + 3] else heap.mem[o + 4];
      } else if hdr.size == 3 {
        LoadEmpty(h, key, def);
        return def;
      } else if Bits(key) < Bits(found) {
        node := if hdr.typ % 2 == FFRIGHT then IEMPTY else heap.mem[o + 3];
      } else {
        node := if hdr.typ % 2 == FFRIGHT then heap.mem[o + 3] else IEMPTY;
      }
    }
    LoadEmpty(h, key, def);
    value := def;
  }

  lemma LoadEmpty(h: seq<Word>, key: Word, def: Word)
    ensures Load(h, IEMPTY) == Some(Leaf) && Find(Leaf, key, def) == def
  {
  }

  /** ff:black and ff:red: a node in the layout that its subtrees call for. */
  method MakeNode(heap: Heap, red: bool, l: Word, k: Word, v: Word, r: Word) returns (o: nat)
    requires heap.Valid() && heap.fp + 5 < heap.end + GCPAD
    requires Held(heap.Whole(), l) && Held(heap.Whole(), k) && Held(heap.Whole(), v) && Held(heap.Whole(), r)
    modifies heap, heap.mem
    ensures heap.Valid() && Newest(heap.Whole(), o) && o == old(heap.fp) && heap.mem == old(heap.mem)
    ensures heap.mem[..][..o] == old(heap.mem[..])[..o]
    ensures IsNode(heap.mem[..], o) && Parts(heap.mem[..], o) == (l, k, v, r)
    ensures IsRed(heap.mem[o]) == red
  {
    var base := if red then TFF + FFRED else TFF;
    var t, fields := base, [k, v];
    if l == IEMPTY {
      if r != IEMPTY {
        t, fields := base + FFRIGHT, [k, v, r];
      }
    } else if r == IEMPTY {
      fields := [k, v, l];
    } else {
      fields := [k, v, l, r];
    }
    o := heap.New(t, fields);
    NodeMade(old(heap.mem[..]), o, heap.mem[..], heap.fp, red, t, fields, l, k, v, r);
  }

  ghost function Parts(h: seq<Word>, o: int): (Word, Word, Word, Word)
    requires IsNode(h, o)
  {
    (LeftOf(h, o), h[o+1], h[o+2], RightOf(h, o))
  }

  ghost predicate IsRed(hdr: Word) {
    hdr.Header? && hdr.typ / FFRED % 2 == 1
  }

  /** An object with the fields and the direction bit that its subtrees call for. */
  lemma NodeMade(h0: seq<Word>, o: int, h: seq<Word>, f: int, red: bool, t: nat, fields: seq<Word>, l: Word,
          k: Word, v: Word, r: Word)
    requires PutOnTop(h0, o, h, f, t, fields)
    requires t == (if red then TFF + FFRED else TFF) + if l == IEMPTY && r != IEMPTY then FFRIGHT else 0
    requires fields == if l == IEMPTY then if r == IEMPTY then [k, v] else [k, v, r]
                       else if r == IEMPTY then [k, v, l] else [k, v, l, r]
    ensures IsNode(h, o) && Parts(h, o) == (l, k, v, r) && IsRed(h[o]) == red
  {
    var s := h[o+1..f];
    assert s[0] == h[o+1] && s[1] == h[o+2];
    assert |s| > 2 ==> s[2] == h[o+3];
    assert |s| > 3 ==> s[3] == h[o+4];
  }

  /** ff-apply: binds the left subtree, the key, the value and the right subtree. */
  method Bind(heap: Heap, o: nat) returns (l: Word, k: Word, v: Word, r: Word)
    requires heap.Valid() && IsNode(heap.mem[..], o)
    ensures (l, k, v, r) == Parts(heap.mem[..], o)
  {
    var hdr := heap.mem[o];
    k, v := heap.mem[o + 1], heap.mem[o + 2];
    if hdr.size == 3 {
      l, r := IEMPTY, IEMPTY;
    } else if hdr.size == 4 {
      if hdr.typ % 2 == FFRIGHT {
        l, r := IEMPTY, heap.mem[o + 3];
      } else {
        l, r := heap.mem[o + 3], IEMPTY;
      }
    } else {
      l, r := heap.mem[o + 3], heap.mem[o + 4];
    }
  }

  lemma NodeCopied(h: seq<Word>, n: int, h': seq<Word>, o: int, f: int, t: nat)
    requires IsNode(h, n) && t == Flipped(h[n].typ)
    requires PutOnTop(h, o, h', f, t, h[n+1..n+h[n].size])
    ensures IsNode(h', o) && Parts(h', o) == Parts(h, n) && IsRed(h'[o]) == !IsRed(h[n])
  {
    var s, s' := h[n+1..n+h[n].size], h'[o+1..f];
    assert s[0] == h[n+1] && s[1] == h[n+2] && s'[0] == h'[o+1] && s'[1] == h'[o+2];
    assert |s| > 2 ==> s[2] == h[n+3] && s'[2] == h'[o+3];
    assert |s| > 3 ==> s[3] == h[n+4] && s'[3] == h'[o+4];
  }

  function Flipped(typ: int): (t: int)
    ensures typ >= TFF ==> t >= 0
  {
    if typ / FFRED % 2 == 1 then typ - FFRED else typ + FFRED
  }

  lemma FieldsHeld(a: Area, n: int, fields: seq<Word>)
    requires Sound(a) && n in a.Objects() && !a.h[n].raw && fields == a.h[n+1..n+a.h[n].size]
    ensures forall w :: w in fields ==> Held(a, w)
  {
    assert SoundObject(a.h, a.Objects(), n);
    forall w | w in fields ensures Held(a, w) {
      var i :| 0 <= i < |fields| && fields[i] == w;
      assert a.h[n + 1 + i] == w;
    }
  }

  /** ff:toggle: a copy of the node in the other colour. */
  method Toggle(heap: Heap, n: nat) returns (o: nat)
    requires heap.Valid() && n in heap.Whole().Objects() && IsNode(heap.mem[..], n)
    requires heap.fp + heap.mem[n].size < heap.end + GCPAD
    modifies heap, heap.mem
    ensures heap.Valid() && Newest(heap.Whole(), o) && o == old(heap.fp) && heap.mem == old(heap.mem)
    ensures heap.mem[..][..o] == old(heap.mem[..])[..o]
    ensures IsNode(heap.mem[..], o) && Parts(heap.mem[..], o) == old(Parts(heap.mem[..], n))
    ensures IsRed(heap.mem[o]) == !old(IsRed(heap.mem[n]))
  {
    ghost var a := heap.Whole();
    var hdr := heap.mem[n];
    var t, fields := Flipped(hdr.typ), heap.mem[n + 1..n + hdr.size];
    FieldsHeld(a, n, fields);
    o := heap.New(t, fields);
    NodeCopied(a.h, n, heap.mem[..], o, heap.fp, t);
  }
}
