/** Where the sweep puts each surviving object, and the steps of the sweep. */
module Sweeping {
  import opened HeapModel
  import opened Marking

  /** The number of words of surviving objects in [a, b). */
  ghost function Kept(h: seq<Word>, live: set<int>, a: int, hi: int, b: int): int
    requires Tiled(h, a, hi)
    decreases hi - a
  {
    if a >= b || a == hi then 0
    else (if a in live then h[a].size else 0) + Kept(h, live, a + h[a].size, hi, b)
  }

  /** The new address of the object at o. */
  ghost function Dest(y: Area, live: set<int>, o: int): int
    requires y.Shaped()
  {
    y.lo + Kept(y.h, live, y.lo, y.hi, o)
  }

  ghost function Moved(y: Area, live: set<int>, w: Word): Word
    requires y.Shaped()
  {
    if y.Inside(w) then Ref(Dest(y, live, w.adr)) else w
  }

  /** Word i of the object at o, as it reads once the object has been moved. */
  ghost function NewWord(y: Area, live: set<int>, o: int, i: int): Word
    requires y.Shaped() && o in y.Objects() && 0 <= i < y.h[o].size
  {
    if i == 0 || y.h[o].raw then y.h[o+i] else Moved(y, live, y.h[o+i])
  }

  ghost predicate Copied(y: Area, live: set<int>, m: seq<Word>, o: int)
    requires y.Shaped() && o in y.Objects()
  {
    && y.lo <= Dest(y, live, o) && Dest(y, live, o) + y.h[o].size <= |m|
    && forall i :: 0 <= i < y.h[o].size ==> m[Dest(y, live, o) + i] == NewWord(y, live, o, i)
  }

  /** Nothing below the area has changed. */
  ghost predicate ElderKept(y: Area, m: seq<Word>)
    requires y.Shaped() && |m| == |y.h|
  {
    forall q :: 0 <= q < y.lo ==> m[q] == y.h[q]
  }

  /** The heap after the sweep: the survivors, in their old order and with nothing between them,
      every pointer to one of them redirected; the root redirected; the old area as it was. */
  ghost predicate Compacted(y: Area, live: set<int>, m: seq<Word>, top: int)
    requires y.Shaped()
  {
    match y case Area(h, lo, hi) =>
      && |m| == |h|
      && live <= y.Objects()
      && top == Dest(y, live, hi)
      && ElderKept(y, m)
      && (forall o {:trigger Copied(y, live, m, o)} :: o in live ==> Copied(y, live, m, o))
      && m[hi + 1] == Moved(y, live, h[hi + 1])
  }

  lemma {:induction false} KeptStep(h: seq<Word>, live: set<int>, a: int, hi: int, o: int)
    requires Tiled(h, a, hi) && o in Starts(h, a, hi)
    ensures Kept(h, live, a, hi, o + h[o].size) == Kept(h, live, a, hi, o) + if o in live then h[o].size else 0
    decreases hi - a
  {
    var next := a + h[a].size;
    if o == a {
      assert Kept(h, live, next, hi, next) == 0;
    } else {
      KeptStep(h, live, next, hi, o);
    }
  }

  lemma {:induction false} KeptMonotone(h: seq<Word>, live: set<int>, a: int, hi: int, b: int, c: int)
    requires Tiled(h, a, hi) && b <= c
    ensures 0 <= Kept(h, live, a, hi, b) <= Kept(h, live, a, hi, c)
    ensures a <= c ==> Kept(h, live, a, hi, c) <= hi - a
    decreases hi - a
  {
    if a < hi {
      KeptMonotone(h, live, a + h[a].size, hi, b, c);
      if a + h[a].size > c {
        assert Kept(h, live, a + h[a].size, hi, c) == 0;
      }
    }
  }

  lemma {:induction false} KeptBelow(h: seq<Word>, live: set<int>, a: int, hi: int, o: int)
    requires Tiled(h, a, hi) && (o in Starts(h, a, hi) || o == hi)
    ensures Kept(h, live, a, hi, o) <= o - a
    decreases hi - a
  {
    if o != a {
      KeptBelow(h, live, a + h[a].size, hi, o);
    }
  }

  /** Survivors keep their order and do not overlap. */
  lemma DestOrder(y: Area, live: set<int>, o: int, q: int)
    requires y.Shaped() && o in y.Objects() && o in live && o < q && (q in y.Objects() || q == y.hi)
    ensures y.lo <= Dest(y, live, o) && Dest(y, live, o) + y.h[o].size <= Dest(y, live, q) <= q
  {
    if q != y.hi { StartsApart(y.h, y.lo, y.hi, o, q); }
    KeptStep(y.h, live, y.lo, y.hi, o);
    KeptMonotone(y.h, live, y.lo, y.hi, o + y.h[o].size, q);
    KeptMonotone(y.h, live, y.lo, y.hi, o, q);
    KeptBelow(y.h, live, y.lo, y.hi, q);
  }

  ghost predicate Border(y: Area, src: int)
    requires y.Shaped()
  {
    src == y.hi || src in y.Objects()
  }

  /** A word not yet moved: pointers to objects already placed are final, and words that are
      neither threaded nor the header of a survivor are as they were. */
  ghost predicate Pending(y: Area, chain: Chains, m: seq<Word>, src: int, q: int)
    requires y.Shaped() && |m| == |y.h| && 0 <= q < |m|
  {
    && (Threaded(y, chain, q) && y.h[q].adr < src ==> m[q] == Ref(Dest(y, chain.Keys, y.h[q].adr)))
    && (q !in chain && !Threaded(y, chain, q) ==> m[q] == y.h[q])
  }

  /** What holds when the sweep has come to `src` and will put the next survivor at `new`. */
  ghost predicate Swept(y: Area, chain: Chains, m: seq<Word>, src: int, dst: int)
    requires y.Shaped()
  {
    match y case Area(h, lo, hi) =>
      && |m| == |h|
      && Border(y, src)
      && dst == Dest(y, chain.Keys, src)
      && ElderKept(y, m)
      && (forall o :: o in chain && o < src ==> o in y.Objects() && Copied(y, chain.Keys, m, o))
      && (forall t :: t in chain && t >= src ==> ChainOf(y, m, t, chain[t]))
      && (forall q :: src <= q < |m| ==> Pending(y, chain, m, src, q))
  }

  lemma SweepStart(y: Area, chain: Chains, m: seq<Word>)
    requires y.Shaped() && Chained(y, m, chain)
    ensures Swept(y, chain, m, y.lo, y.lo)
  {
    KeptBelow(y.h, chain.Keys, y.lo, y.hi, y.lo);
    ChainedKeys(y, m, chain);
    forall q | 0 <= q < |m| && (q < y.lo) ensures q !in chain && !Threaded(y, chain, q) {
      if Threaded(y, chain, q) { ThreadedIsSlot(y, m, chain, q); }
    }
    forall q | y.lo <= q < |m| ensures Pending(y, chain, m, y.lo, q) {
    }
  }

  lemma SweepDead(y: Area, chain: Chains, m: seq<Word>, src: int, next: int, dst: int)
    requires y.Shaped() && Swept(y, chain, m, src, dst)
    requires src < y.hi && src !in chain && next == src + y.h[src].size
    ensures Swept(y, chain, m, next, dst)
  {
    StartsNext(y.h, y.lo, y.hi, src);
    KeptStep(y.h, chain.Keys, y.lo, y.hi, src);
    forall t | t in chain && t < next ensures t < src {
      if t >= src {
        assert ChainOf(y, m, t, chain[t]);
        StartsApart(y.h, y.lo, y.hi, src, t);
      }
    }
    forall q | next <= q < |m| ensures Pending(y, chain, m, next, q) {
      assert Pending(y, chain, m, src, q);
    }
  }

  lemma SweepDone(y: Area, chain: Chains, m: seq<Word>, dst: int)
    requires y.Valid() && Swept(y, chain, m, y.hi, dst)
    requires Found(y, chain)
    ensures Compacted(y, chain.Keys, m, dst)
  {
    var root := y.hi + 1;
    assert y.Slot(y.hi, root) && Pending(y, chain, m, y.hi, root);
    assert Threaded(y, chain, root) <==> y.Inside(y.h[root]);
    forall t | t in chain.Keys ensures t in y.Objects() {
      assert y.Reachable(t);
    }
  }

  /** The word the sweep looks at next is a header, or the start of a survivor's chain. */
  lemma HereInSweep(y: Area, chain: Chains, m: seq<Word>, src: int, dst: int)
    requires y.Shaped() && Swept(y, chain, m, src, dst) && Found(y, chain) && src < y.hi
    ensures src in y.Objects() && 0 <= y.lo <= dst <= src < |m|
    ensures if src in chain then m[src].Thread? else m[src] == y.h[src]
  {
    KeptMonotone(y.h, chain.Keys, y.lo, y.hi, src, src);
    KeptBelow(y.h, chain.Keys, y.lo, y.hi, src);
    if src in chain {
      assert ChainOf(y, m, src, chain[src]);
    } else {
      assert Pending(y, chain, m, src, src);
      if Threaded(y, chain, src) {
        SomeSlotIsNotAnObject(y, src);
      }
    }
  }

  /** While the chain c of t is being undone: slots from c[j] on have been redirected to dst, the
      rest of the chain now hangs off dst. */
  ghost predicate Unthreading(y: Area, m0: seq<Word>, m: seq<Word>, t: int, c: seq<int>, j: int, dst: int)
    requires 0 <= t < |y.h|
  {
    match y case Area(h, lo, hi) =>
      && |m0| == |m|
      && 0 <= j <= |c| && 0 <= dst < |m|
      && m[dst] == (if j == 0 then h[t] else Thread(c[j-1]))
      && (forall k :: 0 <= k < |c| ==> 0 <= c[k] < |m| && c[k] != dst)
      && (forall k :: 0 <= k < |c| ==> m[c[k]] == if k >= j then Ref(dst) else m0[c[k]])
      && (forall q :: 0 <= q < |m| && q != dst && q !in c ==> m[q] == m0[q])
  }

  /** Every slot that refers to t lies above the whole of t, so none has been moved yet. */
  lemma ChainAbove(y: Area, m: seq<Word>, t: int, c: seq<int>, k: int)
    requires y.Valid() && y.Downward() && |m| == |y.h| && ChainOf(y, m, t, c) && 0 <= k < |c|
    ensures t + y.h[t].size <= c[k] < |m|
  {
    assert LinkAt(y, m, t, c, k);
    var o :| y.Slot(o, c[k]);
    if o != y.hi { StartsApart(y.h, y.lo, y.hi, t, o); }
  }

  lemma UnthreadStart(y: Area, chain: Chains, m: seq<Word>, src: int, dst: int)
    requires y.Valid() && y.Downward() && Swept(y, chain, m, src, dst) && src in chain && dst <= src
    requires 0 <= dst
    ensures ChainOf(y, m, src, chain[src])
    ensures Unthreading(y, m, m[dst := m[src]], src, chain[src], |chain[src]|, dst)
  {
    var c := chain[src];
    forall k | 0 <= k < |c| ensures src < c[k] < |m| {
      ChainAbove(y, m, src, c, k);
    }
  }

  lemma UnthreadNext(y: Area, m0: seq<Word>, m: seq<Word>, t: int, c: seq<int>, j: int, dst: int)
    requires y.Shaped() && |m0| == |y.h| && ChainOf(y, m0, t, c)
    requires Unthreading(y, m0, m, t, c, j, dst) && j > 0
    ensures 0 <= c[j-1] < |m|
    ensures Unthreading(y, m0, m[dst := m[c[j-1]]][c[j-1] := Ref(dst)], t, c, j - 1, dst)
  {
    assert LinkAt(y, m0, t, c, j-1);
  }

  /** The words of the object at src are final once its own chain is undone: pointers in it go to
      objects already placed, raw bytes were never touched. */
  lemma WordReady(y: Area, chain: Chains, m: seq<Word>, src: int, dst: int, i: int)
    requires y.Valid() && y.Downward() && Found(y, chain)
    requires Swept(y, chain, m, src, dst) && src in chain
    requires src in y.Objects() && 0 < i < y.h[src].size
    ensures m[src + i] == NewWord(y, chain.Keys, src, i)
  {
    var p := src + i;
    assert Pending(y, chain, m, src, p);
    if p in chain {
      assert ChainOf(y, m, p, chain[p]);
      StartsApart(y.h, y.lo, y.hi, src, p);
    }
    if y.h[src].raw {
      if Threaded(y, chain, p) {
        RawIsNoSlot(y, src, p);
      }
    } else {
      assert y.Slot(src, p);
    }
  }

  lemma RawIsNoSlot(y: Area, src: int, p: int)
    requires y.Shaped()
    requires src in y.Objects() && y.h[src].raw && src < p < src + y.h[src].size
    ensures !SomeSlot(y, p)
  {
    if SomeSlot(y, p) {
      var o :| y.Slot(o, p);
      if o != y.hi { StartsApart(y.h, y.lo, y.hi, if o < src then o else src, if o < src then src else o); }
    }
  }

  lemma CopiedFrame(y: Area, live: set<int>, m: seq<Word>, m': seq<Word>, o: int)
    requires y.Shaped() && o in y.Objects() && |m| == |m'|
    requires Copied(y, live, m, o)
    requires forall q :: Dest(y, live, o) <= q < Dest(y, live, o) + y.h[o].size ==> m'[q] == m[q]
    ensures Copied(y, live, m', o)
  {
  }

  /** From m0, the chain of src is undone (m1) and the object is slid down to dst (m2). */
  ghost predicate Slid(y: Area, m0: seq<Word>, m1: seq<Word>, m2: seq<Word>, chain: Chains, src: int, dst: int)
    requires 0 <= src < |y.h| && y.h[src].Header? && src in chain
  {
    match y case Area(h, lo, hi) =>
      && |m0| == |m1| == |m2| == |h|
      && dst <= src && src + h[src].size <= |h|
      && Unthreading(y, m0, m1, src, chain[src], 0, dst)
      && m2[dst] == m1[dst]
      && (forall q :: dst < q < dst + h[src].size ==> m2[q] == m1[q - dst + src])
      && (forall q :: 0 <= q < |m2| && !(dst <= q < dst + h[src].size) ==> m2[q] == m1[q])
  }

  /** What sliding one object does elsewhere: the slots that refer to it are redirected. */
  lemma SlideFrame(y: Area, chain: Chains, m0: seq<Word>, m1: seq<Word>, m2: seq<Word>, src: int, dst: int, q: int)
    requires y.Shaped() && src in chain && src in y.Objects() && Slid(y, m0, m1, m2, chain, src, dst)
    requires 0 <= q < |m0| && (q < dst || src + y.h[src].size <= q)
    ensures q in chain[src] ==> m2[q] == Ref(dst)
    ensures q !in chain[src] ==> m2[q] == m0[q]
  {
  }

  lemma SlidObject(y: Area, chain: Chains, m0: seq<Word>, m1: seq<Word>, m2: seq<Word>, src: int, dst: int)
    requires y.Valid() && y.Downward() && Found(y, chain)
    requires Swept(y, chain, m0, src, dst)
    requires src in chain && src in y.Objects() && y.lo <= dst && Slid(y, m0, m1, m2, chain, src, dst)
    ensures Copied(y, chain.Keys, m2, src)
  {
    forall i | 0 <= i < y.h[src].size ensures m2[dst + i] == NewWord(y, chain.Keys, src, i) {
      if i > 0 {
        WordReady(y, chain, m0, src, dst, i);
        forall k | 0 <= k < |chain[src]| ensures chain[src][k] != src + i {
          ChainAbove(y, m0, src, chain[src], k);
        }
      }
    }
  }

  lemma SlidBelow(y: Area, chain: Chains, m0: seq<Word>, m1: seq<Word>, m2: seq<Word>, src: int, dst: int, o: int)
    requires y.Valid() && y.Downward() && Found(y, chain)
    requires Swept(y, chain, m0, src, dst)
    requires src in chain && src in y.Objects() && y.lo <= dst && Slid(y, m0, m1, m2, chain, src, dst)
    requires o in chain && o < src + y.h[src].size
    ensures o in y.Objects() && Copied(y, chain.Keys, m2, o)
  {
    if o == src {
      SlidObject(y, chain, m0, m1, m2, src, dst);
    } else {
      assert y.Reachable(o);
      if src < o { StartsApart(y.h, y.lo, y.hi, src, o); }
      DestOrder(y, chain.Keys, o, src);
      forall q | Dest(y, chain.Keys, o) <= q < Dest(y, chain.Keys, o) + y.h[o].size ensures m2[q] == m0[q] {
        SlideFrame(y, chain, m0, m1, m2, src, dst, q);
        if q in chain[src] {
          var k :| 0 <= k < |chain[src]| && chain[src][k] == q;
          ChainAbove(y, m0, src, chain[src], k);
        }
      }
      CopiedFrame(y, chain.Keys, m0, m2, o);
    }
  }

  lemma SlidAbove(y: Area, chain: Chains, m0: seq<Word>, m1: seq<Word>, m2: seq<Word>, src: int, dst: int, t: int)
    requires y.Valid() && y.Downward() && Found(y, chain)
    requires Swept(y, chain, m0, src, dst)
    requires src in chain && src in y.Objects() && y.lo <= dst && Slid(y, m0, m1, m2, chain, src, dst)
    requires t in chain && t >= src + y.h[src].size
    ensures ChainOf(y, m2, t, chain[t])
  {
    assert ChainOf(y, m0, t, chain[t]);
    SlideFrame(y, chain, m0, m1, m2, src, dst, t);
    ChainMember(y, m0, src, chain[src], t);
    forall q | 0 <= q < |m0| && q in chain[t] ensures m2[q] == m0[q] {
      var j :| 0 <= j < |chain[t]| && chain[t][j] == q;
      ChainAbove(y, m0, t, chain[t], j);
      ChainMember(y, m0, t, chain[t], q);
      ChainMember(y, m0, src, chain[src], q);
      SlideFrame(y, chain, m0, m1, m2, src, dst, q);
    }
    ChainFrame(y, m0, m2, t, chain[t]);
  }

  /** Words above the object that has just been moved. */
  lemma SlidRest(y: Area, chain: Chains, m0: seq<Word>, m1: seq<Word>, m2: seq<Word>, src: int, dst: int, next: int,
          q: int)
    requires y.Valid() && Found(y, chain)
    requires Swept(y, chain, m0, src, dst)
    requires src in chain && src in y.Objects() && y.lo <= dst && Slid(y, m0, m1, m2, chain, src, dst)
    requires src + y.h[src].size <= q < |m0| && next == src + y.h[src].size
    ensures Pending(y, chain, m2, next, q)
  {
    assert Pending(y, chain, m0, src, q);
    SlideFrame(y, chain, m0, m1, m2, src, dst, q);
    ChainMember(y, m0, src, chain[src], q);
    if Threaded(y, chain, q) {
      var t := y.h[q].adr;
      assert y.Reachable(t);
      if src < t { StartsApart(y.h, y.lo, y.hi, src, t); }
    }
  }

  lemma SlidElder(y: Area, chain: Chains, m0: seq<Word>, m1: seq<Word>, m2: seq<Word>, src: int, dst: int)
    requires y.Shaped() && Swept(y, chain, m0, src, dst)
    requires src in chain && src in y.Objects() && y.lo <= dst && Slid(y, m0, m1, m2, chain, src, dst)
    ensures ElderKept(y, m2)
  {
    forall q | 0 <= q < y.lo ensures m2[q] == y.h[q] {
      SlideFrame(y, chain, m0, m1, m2, src, dst, q);
      ChainMember(y, m0, src, chain[src], q);
    }
  }

  lemma SweepLive(y: Area, chain: Chains, m0: seq<Word>, m1: seq<Word>, m2: seq<Word>, src: int, dst: int, next: int)
    requires y.Valid() && y.Downward() && Found(y, chain)
    requires Swept(y, chain, m0, src, dst)
    requires src in chain && src in y.Objects() && y.lo <= dst && Slid(y, m0, m1, m2, chain, src, dst)
    requires next == src + y.h[src].size
    ensures Swept(y, chain, m2, next, dst + y.h[src].size)
  {
    assert Border(y, next) && Dest(y, chain.Keys, next) == dst + y.h[src].size by {
      StartsNext(y.h, y.lo, y.hi, src);
      KeptStep(y.h, chain.Keys, y.lo, y.hi, src);
    }
    SlidElder(y, chain, m0, m1, m2, src, dst);
    forall o | o in chain && o < next ensures o in y.Objects() && Copied(y, chain.Keys, m2, o) {
      SlidBelow(y, chain, m0, m1, m2, src, dst, o);
    }
    forall t | t in chain && t >= next ensures ChainOf(y, m2, t, chain[t]) {
      SlidAbove(y, chain, m0, m1, m2, src, dst, t);
    }
    forall q | next <= q < |m0| ensures Pending(y, chain, m2, next, q) {
      SlidRest(y, chain, m0, m1, m2, src, dst, next, q);
    }
  }
}
