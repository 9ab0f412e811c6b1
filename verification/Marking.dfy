/** The state of a pointer-reversal traversal and the four steps it is made of. */
module Marking {
  import opened HeapModel

  type Chains = map<int, seq<int>>

  /** p has been moved onto the chain of the object it refers to. */
  ghost predicate Threaded(y: Area, chain: Chains, p: int)
  {
    0 <= p < |y.h| && y.h[p].Ref? && y.h[p].adr in chain && p in chain[y.h[p].adr]
  }

  /** p is a pointer-carrying word of some object, or the root. */
  ghost predicate SomeSlot(y: Area, p: int)
    requires y.Shaped()
  {
    exists o :: y.Slot(o, p)
  }

  ghost predicate LinkAt(y: Area, m: seq<Word>, t: int, c: seq<int>, j: int)
    requires y.Shaped() && |m| == |y.h|
    requires t in y.Objects() && 0 <= j < |c|
  {
    && 0 <= c[j] < |m|
    && SomeSlot(y, c[j])
    && y.h[c[j]] == Ref(t)
    && m[c[j]] == (if j == 0 then y.h[t] else Thread(c[j-1]))
  }

  /** The chain of t, first slot first: the header word of t points at the last slot, every
      slot at the one before it, and the first slot holds the header that was displaced. */
  ghost predicate ChainOf(y: Area, m: seq<Word>, t: int, c: seq<int>)
    requires y.Shaped() && |m| == |y.h|
  {
    && t in y.Objects()
    && |c| > 0
    && m[t] == Thread(c[|c|-1])
    && (forall j :: 0 <= j < |c| ==> LinkAt(y, m, t, c, j))
    && (forall i, j :: 0 <= i < j < |c| ==> c[i] != c[j])
  }

  /** m is y.h with exactly the slots named in `chain` threaded. */
  ghost predicate Chained(y: Area, m: seq<Word>, chain: Chains)
    requires y.Shaped()
  {
    match y case Area(h, lo, hi) =>
      && |m| == |h|
      && (forall t :: t in chain ==> ChainOf(y, m, t, chain[t]))
      && (forall q :: 0 <= q < |m| && q !in chain && !Threaded(y, chain, q) ==> m[q] == h[q])
  }

  /** How the traversal got where it is: owners[0] is the root, and via[k] is the slot of
      owners[k] through which it went down into owners[k+1]. */
  ghost predicate Descended(y: Area, chain: Chains, owners: seq<int>, via: seq<int>)
    requires y.Shaped()
  {
    && |owners| == |via| + 1
    && owners[0] == y.hi
    && (forall k :: 0 <= k < |via| ==> DescendedAt(y, chain, owners, via, k))
    && (forall i, k :: 0 <= i < k < |owners| ==> owners[i] != owners[k])
  }

  ghost predicate DescendedAt(y: Area, chain: Chains, owners: seq<int>, via: seq<int>, k: int)
    requires y.Shaped() && |owners| == |via| + 1 && 0 <= k < |via|
  {
    var t := owners[k+1];
    && y.Slot(owners[k], via[k])
    && y.h[via[k]] == Ref(t)
    && t in chain
    && |chain[t]| > 0
    && chain[t][0] == via[k]
    && t in y.Objects()
    && !y.h[t].raw
  }

  /** Of the slots of o, exactly those up to position c are still to be visited. */
  ghost predicate Scanned(y: Area, todo: set<int>, o: int, c: int)
    requires y.Shaped()
  {
    forall p :: y.Slot(o, p) ==> (p in todo <==> p <= c)
  }

  /** Which slots have been visited: in the object being scanned those above `pos`, in the ones
      it was reached through those from the slot we went down by, in finished objects all, and
      in objects not yet found none. */
  ghost predicate Progress(y: Area, chain: Chains, owners: seq<int>, via: seq<int>, todo: set<int>, pos: int)
    requires y.Shaped() && Descended(y, chain, owners, via)
  {
    var top := owners[|via|];
    && y.Node(top)
    && top <= pos <= y.Last(top)
    && Scanned(y, todo, top, pos)
    && (forall k :: 0 <= k < |via| ==> Scanned(y, todo, owners[k], via[k] - 1))
    && (forall o :: o in y.Objects() && o !in chain ==> Scanned(y, todo, o, y.Last(o)))
    && (forall o :: o in chain && o !in owners ==> Scanned(y, todo, o, o))
  }

  /** A slot that points into the area is on its chain once it has been visited, and not before. */
  ghost predicate Recorded(y: Area, chain: Chains, todo: set<int>)
    requires y.Shaped()
  {
    forall p :: SomeSlot(y, p) && y.Inside(y.h[p]) ==> (Threaded(y, chain, p) <==> p !in todo)
  }

  /** What holds between two iterations of the marking loop; `todo` are the slots not yet visited. */
  ghost predicate Traversal(y: Area, m: seq<Word>, chain: Chains, owners: seq<int>, via: seq<int>, todo: set<int>,
          pos: int)
  {
    match y case Area(h, lo, hi) =>
      && y.Valid()
      && Chained(y, m, chain)
      && Descended(y, chain, owners, via)
      && Progress(y, chain, owners, via, todo, pos)
      && Recorded(y, chain, todo)
      && (forall t :: t in chain ==> y.Reachable(t))
  }

  /** The outcome of marking: the objects with a chain are the reachable ones, and every pointer
      into the area that one of them (or the root) holds is on a chain. */
  ghost predicate Found(y: Area, chain: Chains)
    requires y.Shaped()
  {
    match y case Area(h, _, hi) =>
      && (forall t :: t in chain ==> t in y.Objects() && y.Reachable(t))
      && (forall o, p :: y.Slot(o, p) && (o == hi || o in chain) && y.Inside(h[p]) ==> Threaded(y, chain, p))
      && (forall p :: Threaded(y, chain, p) ==> SomeSlot(y, p))
  }

  function Thread1(m: seq<Word>, p: int, t: int): seq<Word>
    requires 0 <= p < |m| && 0 <= t < |m|
  {
    m[p := m[t]][t := Thread(p)]
  }

  function Extend(chain: Chains, t: int, p: int): Chains {
    chain[t := (if t in chain then chain[t] else []) + [p]]
  }

  lemma ChainFrame(y: Area, m: seq<Word>, m': seq<Word>, t: int, c: seq<int>)
    requires y.Shaped() && |m| == |m'| == |y.h|
    requires ChainOf(y, m, t, c)
    requires m'[t] == m[t]
    requires forall q :: 0 <= q < |m| && q in c ==> m'[q] == m[q]
    ensures ChainOf(y, m', t, c)
  {
    forall j | 0 <= j < |c| ensures LinkAt(y, m', t, c, j) {
      assert LinkAt(y, m, t, c, j) && c[j] in c;
    }
  }

  lemma SomeSlotIsNotAnObject(y: Area, p: int)
    requires y.Shaped() && SomeSlot(y, p)
    ensures y.lo < p < |y.h| && p !in y.Objects() && p != y.hi
  {
    var o :| y.Slot(o, p);
    SlotIsNotAnObject(y, o, p);
  }

  /** Moving one slot onto a chain, which may still be empty. */
  lemma ChainGrow(y: Area, m: seq<Word>, t: int, c: seq<int>, p: int)
    requires y.Shaped() && |m| == |y.h|
    requires if c == [] then t in y.Objects() && m[t] == y.h[t] else ChainOf(y, m, t, c)
    requires SomeSlot(y, p) && 0 <= p < |m| && y.h[p] == Ref(t) && p !in c
    ensures ChainOf(y, Thread1(m, p, t), t, c + [p])
  {
    SomeSlotIsNotAnObject(y, p);
    var m' := Thread1(m, p, t);
    var c' := c + [p];
    forall j | 0 <= j < |c'| ensures LinkAt(y, m', t, c', j) {
      if j < |c| {
        assert LinkAt(y, m, t, c, j) && c[j] in c;
        SomeSlotIsNotAnObject(y, c[j]);
      }
    }
  }

  lemma ThreadedIsSlot(y: Area, m: seq<Word>, chain: Chains, q: int)
    requires y.Shaped() && Chained(y, m, chain) && Threaded(y, chain, q)
    ensures SomeSlot(y, q) && q !in y.Objects() && q !in chain
  {
    var t := y.h[q].adr;
    assert ChainOf(y, m, t, chain[t]);
    var j :| 0 <= j < |chain[t]| && chain[t][j] == q;
    assert LinkAt(y, m, t, chain[t], j);
    SomeSlotIsNotAnObject(y, q);
    assert q in chain ==> ChainOf(y, m, q, chain[q]);
  }

  lemma ThreadedExtend(y: Area, chain: Chains, p: int, t: int)
    requires 0 <= p < |y.h| && y.h[p] == Ref(t)
    ensures forall q :: Threaded(y, Extend(chain, t, p), q) <==> q == p || Threaded(y, chain, q)
  {
    var c := if t in chain then chain[t] else [];
    assert forall q :: q in c + [p] <==> q == p || q in c;
  }

  /** Threading a slot of t leaves every other chain as it was. */
  lemma ChainOther(y: Area, m: seq<Word>, chain: Chains, p: int, t: int, s: int)
    requires y.Shaped() && Chained(y, m, chain)
    requires 0 <= p < |m| && 0 <= t < |m| && SomeSlot(y, p) && t in y.Objects()
    requires !Threaded(y, chain, p)
    requires s in chain && s != t
    ensures ChainOf(y, Thread1(m, p, t), s, chain[s])
  {
    SomeSlotIsNotAnObject(y, p);
    assert ChainOf(y, m, s, chain[s]);
    forall q | 0 <= q < |m| && q in chain[s] ensures q != p && q != t {
      var j :| 0 <= j < |chain[s]| && chain[s][j] == q;
      assert LinkAt(y, m, s, chain[s], j);
      SomeSlotIsNotAnObject(y, q);
    }
    ChainFrame(y, m, Thread1(m, p, t), s, chain[s]);
  }

  lemma ChainMember(y: Area, m: seq<Word>, t: int, c: seq<int>, q: int)
    requires y.Shaped() && |m| == |y.h| && ChainOf(y, m, t, c)
    ensures q in c ==> y.lo < q < |m| && y.h[q] == Ref(t) && SomeSlot(y, q) && q !in y.Objects()
  {
    if q in c {
      var j :| 0 <= j < |c| && c[j] == q;
      assert LinkAt(y, m, t, c, j);
      SomeSlotIsNotAnObject(y, q);
    }
  }

  lemma ChainedThread(y: Area, m: seq<Word>, chain: Chains, p: int, t: int)
    requires y.Shaped()
    requires Chained(y, m, chain)
    requires 0 <= p < |m| && SomeSlot(y, p) && y.h[p] == Ref(t) && t in y.Objects()
    requires !Threaded(y, chain, p)
    ensures Chained(y, Thread1(m, p, t), Extend(chain, t, p))
  {
    var m' := Thread1(m, p, t);
    var chain' := Extend(chain, t, p);
    ThreadedExtend(y, chain, p, t);
    SomeSlotIsNotAnObject(y, p);
    if Threaded(y, chain, t) { ThreadedIsSlot(y, m, chain, t); }
    forall s | s in chain' ensures ChainOf(y, m', s, chain'[s]) {
      if s == t {
        ChainGrow(y, m, t, if t in chain then chain[t] else [], p);
      } else {
        ChainOther(y, m, chain, p, t, s);
      }
    }
  }

  lemma ScannedElsewhere(y: Area, todo: set<int>, o: int, c: int, q: int, p: int)
    requires y.Shaped() && Scanned(y, todo, o, c)
    requires y.Slot(q, p) && o != q
    ensures Scanned(y, todo - {p}, o, c)
  {
    forall s | y.Slot(o, s) ensures s in todo - {p} <==> s <= c {
      if s == p { SlotOwner(y, o, q, p); }
    }
  }

  lemma ScannedHere(y: Area, todo: set<int>, o: int, c: int)
    requires y.Shaped() && Scanned(y, todo, o, c)
    ensures Scanned(y, todo - {c}, o, c - 1)
  {
  }

  /** Passing over one slot of the object being scanned. */
  lemma Advance(y: Area, chain: Chains, owners: seq<int>, via: seq<int>, todo: set<int>, pos: int)
    requires y.Shaped() && Descended(y, chain, owners, via) && Progress(y, chain, owners, via, todo, pos)
    requires owners[|via|] < pos
    ensures Progress(y, chain, owners, via, todo - {pos}, pos - 1)
  {
    var top := owners[|via|];
    assert y.Slot(top, pos);
    assert top == y.hi || top in chain by {
      OwnersFound(y, chain, owners, via);
    }
    ScannedHere(y, todo, top, pos);
    forall o, c | o != top && Scanned(y, todo, o, c) ensures Scanned(y, todo - {pos}, o, c) {
      ScannedElsewhere(y, todo, o, c, top, pos);
    }
  }

  lemma OwnersFound(y: Area, chain: Chains, owners: seq<int>, via: seq<int>)
    requires y.Shaped() && Descended(y, chain, owners, via)
    ensures forall k :: 0 <= k < |owners| ==> owners[k] == y.hi || owners[k] in chain
  {
    forall k | 0 <= k < |owners| ensures owners[k] == y.hi || owners[k] in chain {
      if k > 0 { assert DescendedAt(y, chain, owners, via, k-1); }
    }
  }

  lemma DescendedExtend(y: Area, chain: Chains, owners: seq<int>, via: seq<int>, t: int, p: int)
    requires y.Shaped() && Descended(y, chain, owners, via)
    ensures Descended(y, Extend(chain, t, p), owners, via)
  {
    forall k | 0 <= k < |via| ensures DescendedAt(y, Extend(chain, t, p), owners, via, k) {
      assert DescendedAt(y, chain, owners, via, k);
    }
  }

  /** A slot whose target is raw, or was found before, is threaded and nothing else happens. */
  lemma ProgressExtend(y: Area, chain: Chains, owners: seq<int>, via: seq<int>, todo: set<int>, pos: int, t: int,
          p: int)
    requires y.Shaped() && Descended(y, chain, owners, via) && Progress(y, chain, owners, via, todo, pos)
    requires t in y.Objects() && (t in chain || y.h[t].raw)
    ensures Descended(y, Extend(chain, t, p), owners, via)
    ensures Progress(y, Extend(chain, t, p), owners, via, todo, pos)
  {
    DescendedExtend(y, chain, owners, via, t, p);
    assert y.h[t].raw ==> Scanned(y, todo, t, t);
  }

  /** The first slot found to refer to t: the traversal goes down into t. */
  lemma Descend(y: Area, chain: Chains, owners: seq<int>, via: seq<int>, todo: set<int>, pos: int, t: int)
    requires y.Shaped() && Descended(y, chain, owners, via) && Progress(y, chain, owners, via, todo, pos)
    requires y.Slot(owners[|via|], pos + 1) && y.h[pos + 1] == Ref(t)
    requires t in y.Objects() && t !in chain && !y.h[t].raw
    ensures Descended(y, Extend(chain, t, pos + 1), owners + [t], via + [pos + 1])
    ensures Progress(y, Extend(chain, t, pos + 1), owners + [t], via + [pos + 1], todo, y.Last(t))
  {
    var chain', owners', via' := Extend(chain, t, pos + 1), owners + [t], via + [pos + 1];
    OwnersFound(y, chain, owners, via);
    forall k | 0 <= k < |via'| ensures DescendedAt(y, chain', owners', via', k) {
      assert k < |via| ==> DescendedAt(y, chain, owners, via, k);
    }
    assert Scanned(y, todo, owners[|via|], pos);
  }

  /** The header of the object being scanned has been reached: back to the slot we came through. */
  lemma Return(y: Area, chain: Chains, owners: seq<int>, via: seq<int>, todo: set<int>)
    requires y.Shaped() && Descended(y, chain, owners, via) && |via| > 0
    requires Progress(y, chain, owners, via, todo, owners[|via|])
    ensures Descended(y, chain, owners[..|via|], via[..|via|-1])
    ensures Progress(y, chain, owners[..|via|], via[..|via|-1], todo, via[|via|-1] - 1)
  {
    var owners', via' := owners[..|via|], via[..|via|-1];
    forall k | 0 <= k < |via'| ensures DescendedAt(y, chain, owners', via', k) {
      assert DescendedAt(y, chain, owners, via, k);
    }
    assert DescendedAt(y, chain, owners, via, |via|-1);
    assert forall o :: o in owners ==> o in owners' || o == owners[|via|];
  }

  lemma MarkStart(y: Area, todo: set<int>)
    requires y.Valid()
    requires forall p :: p in todo <==> 0 <= p < |y.h| && SomeSlot(y, p)
    ensures Traversal(y, y.h, map[], [y.hi], [], todo, y.hi + 1)
  {
    forall o, p | y.Slot(o, p) ensures p in todo {
      assert SomeSlot(y, p);
    }
  }

  /** At a slot that does not point into the area. */
  lemma StepSkip(y: Area, m: seq<Word>, chain: Chains, owners: seq<int>, via: seq<int>, todo: set<int>, pos: int)
    requires Traversal(y, m, chain, owners, via, todo, pos)
    requires |owners| == |via| + 1 && 0 <= pos < |y.h|
    requires owners[|via|] < pos && !y.Inside(y.h[pos])
    ensures Traversal(y, m, chain, owners, via, todo - {pos}, pos - 1)
  {
    Advance(y, chain, owners, via, todo, pos);
  }

  lemma ChainedKeys(y: Area, m: seq<Word>, chain: Chains)
    requires y.Shaped() && Chained(y, m, chain)
    ensures forall t :: t in chain ==> t in y.Objects()
  {
    forall t | t in chain ensures t in y.Objects() {
      assert ChainOf(y, m, t, chain[t]);
    }
  }

  /** What the word being looked at holds: a slot not yet visited is as it was, and so is the
      object it refers to unless that has been found; a header leads back to where we came from. */
  lemma StepReads(y: Area, m: seq<Word>, chain: Chains, owners: seq<int>, via: seq<int>, todo: set<int>, pos: int)
    requires Traversal(y, m, chain, owners, via, todo, pos)
    requires pos != y.hi
    ensures y.Shaped() && Chained(y, m, chain)
    ensures |owners| == |via| + 1 && owners[|via|] <= pos
    ensures 0 <= pos < |m| == |y.h|
    ensures m[pos].Thread? <==> owners[|via|] == pos
    ensures owners[|via|] < pos ==> pos in todo && SomeSlot(y, pos) && m[pos] == y.h[pos]
    ensures owners[|via|] < pos && y.Inside(m[pos]) ==>
              && 0 <= m[pos].adr < |m| && m[pos].adr != pos
              && m[pos].adr in y.Objects() && y.h[m[pos].adr].Header?
              && !Threaded(y, chain, pos)
              && (if m[pos].adr in chain then m[m[pos].adr].Thread? else m[m[pos].adr] == y.h[m[pos].adr])
    ensures owners[|via|] == pos ==>
              && |via| > 0 && pos in chain && |chain[pos]| > 0
              && m[pos].adr >= y.lo && m[pos].adr in chain[pos]
              && chain[pos][0] == via[|via|-1]
  {
    var top := owners[|via|];
    if top < pos {
      assert y.Slot(top, pos);
      SlotIsNotAnObject(y, top, pos);
      ChainedKeys(y, m, chain);
      if y.Inside(y.h[pos]) {
        var t := y.h[pos].adr;
        if t in chain {
          assert ChainOf(y, m, t, chain[t]);
        } else if Threaded(y, chain, t) {
          ThreadedIsSlot(y, m, chain, t);
        }
      }
    } else {
      assert |via| > 0 ==> DescendedAt(y, chain, owners, via, |via|-1);
      var c := chain[pos];
      assert ChainOf(y, m, pos, c);
      assert LinkAt(y, m, pos, c, |c|-1);
      SomeSlotIsNotAnObject(y, c[|c|-1]);
    }
  }

  /** At the header of the object being scanned. */
  lemma StepReturn(y: Area, m: seq<Word>, chain: Chains, owners: seq<int>, via: seq<int>, todo: set<int>, pos: int)
    requires Traversal(y, m, chain, owners, via, todo, pos)
    requires pos != y.hi && owners[|via|] == pos
    ensures |via| > 0
    ensures Traversal(y, m, chain, owners[..|via|], via[..|via|-1], todo, via[|via|-1] - 1)
  {
    Return(y, chain, owners, via, todo);
  }

  lemma RecordedThread(y: Area, chain: Chains, todo: set<int>, p: int, t: int)
    requires y.Shaped() && Recorded(y, chain, todo)
    requires 0 <= p < |y.h| && y.h[p] == Ref(t)
    ensures Recorded(y, Extend(chain, t, p), todo - {p})
  {
    ThreadedExtend(y, chain, p, t);
  }

  lemma TargetReachable(y: Area, chain: Chains, owners: seq<int>, via: seq<int>, pos: int, t: int)
    requires y.Valid() && Descended(y, chain, owners, via)
    requires y.Slot(owners[|via|], pos) && y.h[pos] == Ref(t) && t >= y.lo
    requires forall t :: t in chain ==> y.Reachable(t)
    ensures y.Reachable(t)
  {
    OwnersFound(y, chain, owners, via);
    assert y.Link(owners[|via|], t);
    ReachableStep(y, owners[|via|], t);
  }

  lemma NotYetThreaded(y: Area, chain: Chains, owners: seq<int>, via: seq<int>, todo: set<int>, pos: int)
    requires y.Valid() && Descended(y, chain, owners, via) && Progress(y, chain, owners, via, todo, pos)
    requires Recorded(y, chain, todo)
    requires owners[|via|] < pos && 0 <= pos < |y.h| && y.Inside(y.h[pos])
    ensures y.Slot(owners[|via|], pos) && SomeSlot(y, pos) && !Threaded(y, chain, pos)
  {
    assert y.Slot(owners[|via|], pos);
  }

  /** Threading a slot without going down. */
  lemma StepThread(y: Area, m: seq<Word>, chain: Chains, owners: seq<int>, via: seq<int>, todo: set<int>, pos: int)
    requires Traversal(y, m, chain, owners, via, todo, pos)
    requires |owners| == |via| + 1 && 0 <= pos < |y.h|
    requires owners[|via|] < pos && y.Inside(y.h[pos])
    requires y.h[pos].adr in chain || (0 <= y.h[pos].adr < |y.h| && y.h[y.h[pos].adr].Header? && y.h[y.h[pos].adr].raw)
    ensures Traversal(y, Thread1(m, pos, y.h[pos].adr), Extend(chain, y.h[pos].adr, pos), owners, via, todo - {pos},
                      pos - 1)
  {
    var t := y.h[pos].adr;
    StepReads(y, m, chain, owners, via, todo, pos);
    ChainedThread(y, m, chain, pos, t);
    Advance(y, chain, owners, via, todo, pos);
    ProgressExtend(y, chain, owners, via, todo - {pos}, pos - 1, t, pos);
    RecordedThread(y, chain, todo, pos, t);
    TargetReachable(y, chain, owners, via, pos, t);
  }

  lemma ExtendReachable(y: Area, chain: Chains, t: int, p: int)
    requires y.Shaped() && y.Reachable(t) && forall s :: s in chain ==> y.Reachable(s)
    ensures forall s :: s in Extend(chain, t, p) ==> y.Reachable(s)
  {
  }

  /** The traversal's invariant, taken apart and put together. */
  lemma TraversalHas(y: Area, m: seq<Word>, chain: Chains, owners: seq<int>, via: seq<int>, todo: set<int>, pos: int)
    requires Traversal(y, m, chain, owners, via, todo, pos)
    ensures y.Valid() && |m| == |y.h| && Chained(y, m, chain) && Descended(y, chain, owners, via)
    ensures Progress(y, chain, owners, via, todo, pos) && Recorded(y, chain, todo)
    ensures forall t :: t in chain ==> y.Reachable(t)
  {
  }

  lemma TraversalIs(y: Area, m: seq<Word>, chain: Chains, owners: seq<int>, via: seq<int>, todo: set<int>, pos: int)
    requires y.Valid() && Chained(y, m, chain) && Descended(y, chain, owners, via)
    requires Progress(y, chain, owners, via, todo, pos) && Recorded(y, chain, todo)
    requires forall t :: t in chain ==> y.Reachable(t)
    ensures Traversal(y, m, chain, owners, via, todo, pos)
  {
  }

  /** Threading the first slot found to refer to t, and going down into t. */
  lemma StepDescend(y: Area, m: seq<Word>, chain: Chains, owners: seq<int>, via: seq<int>, todo: set<int>, pos: int,
          t: int)
    requires Traversal(y, m, chain, owners, via, todo, pos)
    requires |owners| == |via| + 1 && 0 <= pos < |y.h|
    requires owners[|via|] < pos && y.h[pos] == Ref(t) && t >= y.lo
    requires t !in chain && t in y.Objects() && !y.h[t].raw
    ensures Traversal(y, Thread1(m, pos, t), Extend(chain, t, pos), owners + [t], via + [pos], todo - {pos},
                      t + y.h[t].size - 1)
  {
    hide Traversal, Chained, Recorded, Descended, Progress, Thread1, Extend, Threaded;
    TraversalHas(y, m, chain, owners, via, todo, pos);
    SlotThreaded(y, m, chain, owners, via, todo, pos, t);
    SlotDescends(y, chain, owners, via, todo, pos, t);
    TraversalIs(y, Thread1(m, pos, t), Extend(chain, t, pos), owners + [t], via + [pos], todo - {pos}, y.Last(t));
  }

  lemma SlotThreaded(y: Area, m: seq<Word>, chain: Chains, owners: seq<int>, via: seq<int>, todo: set<int>, pos: int,
          t: int)
    requires y.Valid() && |m| == |y.h| && Chained(y, m, chain) && Descended(y, chain, owners, via)
    requires Progress(y, chain, owners, via, todo, pos) && Recorded(y, chain, todo)
    requires forall t :: t in chain ==> y.Reachable(t)
    requires 0 <= pos < |y.h| && owners[|via|] < pos && y.h[pos] == Ref(t) && t >= y.lo && t in y.Objects()
    ensures Chained(y, Thread1(m, pos, t), Extend(chain, t, pos)) && Recorded(y, Extend(chain, t, pos), todo - {pos})
    ensures forall s :: s in Extend(chain, t, pos) ==> y.Reachable(s)
  {
    hide Chained, Recorded, Descended, Progress, Thread1, Extend, Threaded;
    NotYetThreaded(y, chain, owners, via, todo, pos);
    ChainedThread(y, m, chain, pos, t);
    RecordedThread(y, chain, todo, pos, t);
    TargetReachable(y, chain, owners, via, pos, t);
    ExtendReachable(y, chain, t, pos);
  }

  lemma SlotDescends(y: Area, chain: Chains, owners: seq<int>, via: seq<int>, todo: set<int>, pos: int, t: int)
    requires y.Valid() && Descended(y, chain, owners, via) && Progress(y, chain, owners, via, todo, pos)
    requires Recorded(y, chain, todo)
    requires 0 <= pos < |y.h| && owners[|via|] < pos && y.h[pos] == Ref(t) && t >= y.lo
    requires t !in chain && t in y.Objects() && !y.h[t].raw
    ensures Descended(y, Extend(chain, t, pos), owners + [t], via + [pos])
    ensures Progress(y, Extend(chain, t, pos), owners + [t], via + [pos], todo - {pos}, y.Last(t))
  {
    hide Recorded, Descended, Progress, Extend, Threaded;
    NotYetThreaded(y, chain, owners, via, todo, pos);
    Advance(y, chain, owners, via, todo, pos);
    Descend(y, chain, owners, via, todo - {pos}, pos - 1, t);
  }

  /** One iteration of the marking loop, whichever kind it is: what it makes of the memory and of
      the position, and that the traversal goes on from there with less left to do. */
  lemma Step(y: Area, m: seq<Word>, chain: Chains, owners: seq<int>, via: seq<int>, todo: set<int>, pos: int)
    returns (m': seq<Word>, chain': Chains, owners': seq<int>, via': seq<int>, todo': set<int>, pos': int)
    requires Traversal(y, m, chain, owners, via, todo, pos)
    requires pos != y.hi
    ensures Traversal(y, m', chain', owners', via', todo', pos')
    ensures todo' < todo || (todo' == todo && |via'| < |via|)
    ensures 0 <= pos < |m|
    ensures m[pos].Thread? ==>
              && y.Shaped() && Chained(y, m, chain)
              && pos in chain && |chain[pos]| > 0 && m[pos].adr in chain[pos] && m[pos].adr >= y.lo
              && m' == m && pos' == chain[pos][0] - 1
    ensures y.Inside(m[pos]) ==>
              var t := m[pos].adr;
              && 0 <= t < |m| && (m[t].Thread? || m[t].Header?)
              && m' == Thread1(m, pos, t)
              && pos' == if m[t].Thread? || m[t].raw then pos - 1 else t + m[t].size - 1
    ensures !m[pos].Thread? && !y.Inside(m[pos]) ==> m' == m && pos' == pos - 1
  {
    hide Traversal;
    StepReads(y, m, chain, owners, via, todo, pos);
    if m[pos].Thread? {
      StepReturn(y, m, chain, owners, via, todo, pos);
      m', chain', owners', via', todo', pos' := m, chain, owners[..|via|], via[..|via|-1], todo, chain[pos][0] - 1;
    } else if y.Inside(m[pos]) {
      var t := m[pos].adr;
      m', chain', todo' := Thread1(m, pos, t), Extend(chain, t, pos), todo - {pos};
      if m[t].Thread? || m[t].raw {
        StepThread(y, m, chain, owners, via, todo, pos);
        owners', via', pos' := owners, via, pos - 1;
      } else {
        StepDescend(y, m, chain, owners, via, todo, pos, t);
        owners', via', pos' := owners + [t], via + [pos], t + m[t].size - 1;
      }
    } else {
      StepSkip(y, m, chain, owners, via, todo, pos);
      m', chain', owners', via', todo', pos' := m, chain, owners, via, todo - {pos}, pos - 1;
    }
  }

  lemma MarkDone(y: Area, m: seq<Word>, chain: Chains, owners: seq<int>, via: seq<int>, todo: set<int>)
    requires Traversal(y, m, chain, owners, via, todo, y.hi)
    ensures Chained(y, m, chain)
    ensures Found(y, chain)
  {
    ChainedKeys(y, m, chain);
    OwnersFound(y, chain, owners, via);
    assert owners[|via|] == y.hi;
    forall p | Threaded(y, chain, p) ensures SomeSlot(y, p) {
      ThreadedIsSlot(y, m, chain, p);
    }
    forall o, p | y.Slot(o, p) && (o == y.hi || o in chain) && y.Inside(y.h[p])
      ensures Threaded(y, chain, p)
    {
      assert SomeSlot(y, p);
      assert Scanned(y, todo, o, o);
    }
  }

  /** What has been found is exactly what can be reached. */
  lemma FoundExactly(y: Area, chain: Chains)
    requires y.Valid() && Found(y, chain)
    ensures forall t :: t in chain <==> t != y.hi && y.Reachable(t)
  {
    forall o, t | (o == y.hi || o in chain.Keys) && y.Link(o, t) ensures t in chain.Keys {
      var p :| y.Slot(o, p) && y.h[p] == Ref(t) && t >= y.lo;
      assert y.Inside(y.h[p]) && Threaded(y, chain, p);
    }
    forall t | t != y.hi && y.Reachable(t) ensures t in chain {
      var path :| y.Path(path) && path[|path|-1] == t;
      ClosedHoldsPath(y, chain.Keys, path);
    }
  }
}
