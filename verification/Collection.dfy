/** What a mark followed by a sweep does to the heap as a whole.

    Throughout, `a` is the whole heap, `y` the part of it being collected (the objects from y.lo
    on), `r` what the root slot holds, `live` the objects found by marking, and m, top the memory
    and the new end of the heap after the sweep. */
module Collection {
  import opened HeapModel
  import opened Marking
  import opened Sweeping
  import opened HeapGraph

  /** y is the upper part of the heap a, starting at one of its objects; r is in the root slot. */
  ghost predicate Upper(a: Area, y: Area, r: Word)
  {
    match a case Area(h, b, f) =>
      && Sound(a) && Held(a, r) && f + 1 < |h| && h[f+1] == r
      && y.h == h && y.hi == f && (y.lo in a.Objects() || y.lo == f)
  }

  lemma UpperSplit(a: Area, y: Area, r: Word)
    requires Upper(a, y, r)
    ensures y.Shaped() && Tiled(a.h, a.lo, y.lo)
    ensures a.Objects() == Starts(a.h, a.lo, y.lo) + y.Objects()
  {
    TiledSplit(a.h, a.lo, y.lo, y.hi);
  }

  lemma SoundSlot(a: Area, y: Area, r: Word, o: int, p: int)
    requires Upper(a, y, r) && y.Shaped() && y.Objects() <= a.Objects() && y.Slot(o, p)
    ensures !y.h[p].Thread? && (y.h[p].Ref? ==> y.h[p].adr in a.Objects() && y.h[p].adr < o)
  {
    assert o != y.hi ==> SoundObject(a.h, a.Objects(), o);
  }

  /** The upper part of a sound heap is fit to be collected. */
  lemma SoundArea(a: Area, y: Area, r: Word)
    requires Upper(a, y, r)
    ensures y.Valid() && y.Downward()
  {
    UpperSplit(a, y, r);
    forall o, p | y.Slot(o, p)
      ensures !y.h[p].Thread? && (y.Inside(y.h[p]) ==> y.h[p].adr in y.Objects() && y.h[p].adr < o)
    {
      SoundSlot(a, y, r, o, p);
    }
  }

  /** A survivor from o on goes to x. */
  ghost predicate Lands(y: Area, live: set<int>, o: int, x: int)
    requires y.Shaped()
  {
    exists q :: q in live && q >= o && x == Dest(y, live, q)
  }

  lemma LandsStep(y: Area, live: set<int>, o: int, next: int)
    requires y.Shaped() && live <= y.Objects() && o in y.Objects() && next == o + y.h[o].size
    ensures forall x :: Lands(y, live, o, x) <==> (o in live && x == Dest(y, live, o)) || Lands(y, live, next, x)
  {
    forall q | q in live && q > o ensures q >= next {
      StartsApart(y.h, y.lo, y.hi, o, q);
    }
  }

  lemma CopiedHeader(y: Area, live: set<int>, m: seq<Word>, top: int, o: int)
    requires y.Shaped() && Compacted(y, live, m, top) && o in live && o in y.Objects()
    ensures 0 <= Dest(y, live, o) < |m| && m[Dest(y, live, o)] == y.h[o]
  {
    assert Copied(y, live, m, o);
    assert m[Dest(y, live, o) + 0] == NewWord(y, live, o, 0);
  }

  /** The survivors, and nothing else, tile the area from where they start. */
  lemma {:induction false} CompactedTiled(y: Area, live: set<int>, m: seq<Word>, top: int, o: int)
    requires y.Shaped() && Compacted(y, live, m, top)
    requires o == y.hi || o in y.Objects()
    ensures Tiled(m, Dest(y, live, o), top)
    ensures forall x :: x in Starts(m, Dest(y, live, o), top) <==> Lands(y, live, o, x)
    decreases y.hi - o
  {
    KeptMonotone(y.h, live, y.lo, y.hi, y.hi, y.hi);
    if o < y.hi {
      var next := o + y.h[o].size;
      StartsNext(y.h, y.lo, y.hi, o);
      KeptStep(y.h, live, y.lo, y.hi, o);
      CompactedTiled(y, live, m, top, next);
      LandsStep(y, live, o, next);
      if o in live {
        CopiedHeader(y, live, m, top, o);
      }
    }
  }

  /** Where each object goes: the ones below the area stay, the survivors slide down. */
  ghost function Relocation(a: Area, y: Area, live: set<int>): map<int, int>
    requires y.Shaped() && y.h == a.h && Tiled(a.h, a.lo, y.lo)
  {
    map o | o in Starts(a.h, a.lo, y.lo) + live :: if o < y.lo then o else Dest(y, live, o)
  }

  /** The survivors hold every pointer target they need: marking has found them all. */
  ghost predicate ClosedUnder(y: Area, live: set<int>)
    requires y.Shaped()
  {
    && live <= y.Objects()
    && forall o, p :: y.Slot(o, p) && (o == y.hi || o in live) && y.Inside(y.h[p]) ==> y.h[p].adr in live
  }

  /** A heap whose upper part y has been compacted. */
  ghost predicate Collected(a: Area, y: Area, r: Word, live: set<int>, m: seq<Word>, top: int)
  {
    match a case Area(h, b, f) =>
      && Upper(a, y, r) && y.Shaped()
      && Tiled(h, b, y.lo) && a.Objects() == Starts(h, b, y.lo) + y.Objects()
      && ClosedUnder(y, live) && Compacted(y, live, m, top)
  }

  lemma FoundCloses(y: Area, chain: Chains)
    requires y.Shaped() && Found(y, chain)
    ensures ClosedUnder(y, chain.Keys)
  {
    forall t | t in chain.Keys ensures t in y.Objects() {
      assert y.Reachable(t);
    }
  }

  lemma MakeCollected(a: Area, y: Area, r: Word, chain: Chains, m: seq<Word>, top: int)
    requires Upper(a, y, r) && y.Shaped()
    requires Found(y, chain) && Compacted(y, chain.Keys, m, top)
    ensures Collected(a, y, r, chain.Keys, m, top)
  {
    UpperSplit(a, y, r);
    FoundCloses(y, chain);
  }

  lemma RelocationOrder(a: Area, y: Area, live: set<int>, o: int, q: int)
    requires y.Shaped() && y.h == a.h && Tiled(a.h, a.lo, y.lo) && live <= y.Objects()
    requires o in Relocation(a, y, live) && q in Relocation(a, y, live) && o < q
    ensures Relocation(a, y, live)[o] < Relocation(a, y, live)[q]
  {
    if o >= y.lo {
      DestOrder(y, live, o, q);
    } else {
      KeptMonotone(y.h, live, y.lo, y.hi, q, q);
    }
  }

  lemma RelocatedSurvivor(a: Area, y: Area, r: Word, live: set<int>, m: seq<Word>, top: int, o: int)
    requires Collected(a, y, r, live, m, top) && o in live
    ensures SameObject(a.h, m, Relocation(a, y, live), o)
  {
    var h, phi := a.h, Relocation(a, y, live);
    assert Copied(y, live, m, o);
    assert m[Dest(y, live, o) + 0] == NewWord(y, live, o, 0);
    forall i | 0 < i < h[o].size ensures SameWord(h, m, phi, o, i) {
      assert m[Dest(y, live, o) + i] == NewWord(y, live, o, i);
      if !h[o].raw {
        assert y.Slot(o, o + i);
        SoundSlot(a, y, r, o, o + i);
      }
    }
  }

  /** Nothing below the area refers into it, so nothing there has to change. */
  lemma RelocatedElder(a: Area, y: Area, r: Word, live: set<int>, m: seq<Word>, top: int, o: int)
    requires Collected(a, y, r, live, m, top) && o in Starts(a.h, a.lo, y.lo)
    ensures SameObject(a.h, m, Relocation(a, y, live), o)
  {
    assert SoundObject(a.h, a.Objects(), o);
    forall i | 0 < i < a.h[o].size ensures SameWord(a.h, m, Relocation(a, y, live), o, i) {
      assert m[o + i] == a.h[o + i];
    }
  }

  lemma CompactedTop(y: Area, live: set<int>, m: seq<Word>, top: int, b: int)
    requires y.Shaped() && Compacted(y, live, m, top) && Tiled(y.h, b, y.lo)
    ensures Tiled(m, b, top) && Tiled(m, y.lo, top)
    ensures Starts(m, b, top) == Starts(y.h, b, y.lo) + Starts(m, y.lo, top)
    ensures forall x :: x in Starts(m, y.lo, top) <==> Lands(y, live, y.lo, x)
  {
    TiledFrame(y.h, m, b, y.lo);
    KeptBelow(y.h, live, y.lo, y.hi, y.lo);
    KeptMonotone(y.h, live, y.lo, y.hi, y.lo, y.lo);
    if y.lo < y.hi { assert y.lo in y.Objects(); }
    CompactedTiled(y, live, m, top, y.lo);
    TiledJoin(m, b, y.lo, top);
  }

  lemma RelocatedInto(a: Area, y: Area, r: Word, live: set<int>, m: seq<Word>, top: int, a': Area, o: int)
    requires Collected(a, y, r, live, m, top) && a' == Area(m, a.lo, top) && a'.Tidy()
    requires o in Relocation(a, y, live)
    ensures o in a.Objects() && Relocation(a, y, live)[o] in a'.Objects()
  {
    CompactedTop(y, live, m, top, a.lo);
    if o in live {
      assert Lands(y, live, y.lo, Relocation(a, y, live)[o]);
    }
  }

  lemma RelocatedObject(a: Area, y: Area, r: Word, live: set<int>, m: seq<Word>, top: int, o: int)
    requires Collected(a, y, r, live, m, top) && o in Relocation(a, y, live)
    ensures SameObject(a.h, m, Relocation(a, y, live), o)
  {
    if o in live {
      RelocatedSurvivor(a, y, r, live, m, top, o);
    } else {
      RelocatedElder(a, y, r, live, m, top, o);
    }
  }

  /** Compacting the upper part of a sound heap keeps the graph below the root. */
  lemma CompactedSameGraph(a: Area, y: Area, r: Word, live: set<int>, m: seq<Word>, top: int, a': Area)
    requires Collected(a, y, r, live, m, top) && a' == Area(m, a.lo, top)
    ensures a'.Tidy()
    ensures SameGraph(a, r, a', m[y.hi+1], Relocation(a, y, live))
  {
    var phi := Relocation(a, y, live);
    CompactedTop(y, live, m, top, a.lo);
    RelocatedRoot(a, y, r, live, m, top);
    forall o | o in phi ensures o in a.Objects() && phi[o] in a'.Objects() {
      RelocatedInto(a, y, r, live, m, top, a', o);
    }
    forall o | o in phi ensures SameObject(a.h, m, phi, o) {
      RelocatedObject(a, y, r, live, m, top, o);
    }
    forall o, q | o in phi && q in phi && o < q ensures phi[o] < phi[q] {
      RelocationOrder(a, y, live, o, q);
    }
  }

  lemma RelocatedRoot(a: Area, y: Area, r: Word, live: set<int>, m: seq<Word>, top: int)
    requires Collected(a, y, r, live, m, top)
    ensures y.hi + 1 < |m|
    ensures m[y.hi+1] == Follow(Relocation(a, y, live), r)
    ensures r.Ref? ==> r.adr in Relocation(a, y, live)
  {
    assert y.Slot(y.hi, y.hi + 1);
  }

  lemma RelocationOnto(a: Area, y: Area, r: Word, live: set<int>, m: seq<Word>, top: int, a': Area)
    requires Collected(a, y, r, live, m, top) && a' == Area(m, a.lo, top)
    ensures a'.Tidy()
    ensures Onto(a', Relocation(a, y, live))
  {
    CompactedTop(y, live, m, top, a.lo);
    var phi := Relocation(a, y, live);
    forall x | x in a'.Objects() ensures IsImage(phi, x) {
      if x in Starts(a.h, a.lo, y.lo) {
        assert phi[x] == x;
      } else {
        assert Lands(y, live, y.lo, x);
        var o :| o in live && x == Dest(y, live, o);
        assert phi[o] == x;
      }
    }
  }

  /** phi is how one collection of the objects from g on moves things: what survives is what can
      be reached from r, or is older than g and stays where it is. */
  ghost predicate OnlyReachable(a: Area, g: int, r: Word, a': Area, phi: map<int, int>)
    requires a.Tidy() && a'.Tidy()
  {
    match a case Area(_, _, _) =>
      && (forall o :: o in phi ==> (o < g && phi[o] == o) || Reaches(a, r, o))
      && Onto(a', phi)
  }

  lemma SurvivorsReached(a: Area, y: Area, r: Word, chain: Chains, m: seq<Word>, top: int, a': Area)
    requires Collected(a, y, r, chain.Keys, m, top) && a' == Area(m, a.lo, top)
    requires y.Valid() && Found(y, chain)
    ensures a'.Tidy() && OnlyReachable(a, y.lo, r, a', Relocation(a, y, chain.Keys))
  {
    RelocationOnto(a, y, r, chain.Keys, m, top, a');
    var phi := Relocation(a, y, chain.Keys);
    forall o | o in phi ensures (o < y.lo && phi[o] == o) || Reaches(a, r, o) {
      if o >= y.lo {
        assert y.Reachable(o);
        AreaReaches(y, a, o);
      }
    }
  }

  /** The newest object stays the newest, if it survives. */
  lemma NewestStays(a: Area, y: Area, live: set<int>, o: int)
    requires y.Shaped() && y.h == a.h && Tiled(a.h, a.lo, y.lo)
    requires live <= y.Objects() && o in live && o + y.h[o].size == y.hi
    ensures Relocation(a, y, live)[o] + y.h[o].size == Dest(y, live, y.hi)
    ensures Relocation(a, y, live)[o] >= y.lo
  {
    KeptStep(y.h, live, y.lo, y.hi, o);
    KeptMonotone(y.h, live, y.lo, y.hi, o, o);
  }

  /** Marking and sweeping the upper part of the heap: the heap stays sound and holds the same
      graph, everything in that part that cannot be reached from the root is gone, and the newest
      object, when the root refers to it, is still the newest. */
  lemma AfterCollection(a: Area, y: Area, regs: int, chain: Chains, m: seq<Word>, top: int, a': Area)
    returns (regs': int, phi: map<int, int>)
    requires Upper(a, y, Ref(regs)) && y.Valid() && Newest(a, regs) && regs >= y.lo
    requires Found(y, chain) && Compacted(y, chain.Keys, m, top) && a' == Area(m, a.lo, top)
    ensures a'.Tidy() && Sound(a') && (y.lo in a'.Objects() || y.lo == top)
    ensures m[y.hi+1] == Ref(regs') && Newest(a', regs') && regs' >= y.lo
    ensures SameGraph(a, Ref(regs), a', Ref(regs'), phi)
    ensures OnlyReachable(a, y.lo, Ref(regs), a', phi)
  {
    var r, live := Ref(regs), chain.Keys;
    MakeCollected(a, y, r, chain, m, top);
    phi := Relocation(a, y, live);
    CompactedSameGraph(a, y, r, live, m, top, a');
    SurvivorsReached(a, y, r, chain, m, top, a');
    SameGraphImageSound(a, r, a', m[y.hi+1], phi);
    CompactedTop(y, live, m, top, a.lo);
    NewestStays(a, y, live, regs);
    regs' := phi[regs];
    assert SameObject(a.h, m, phi, regs);
    if y.lo != top { assert y.lo in Starts(m, y.lo, top); }
  }

  /** The same conclusions for a heap that differs only outside its bounds. */
  lemma CollectedFrame(a: Area, a0: Area, g: int, r: Word, a': Area, r': Word, phi: map<int, int>)
    requires a.Tidy() && a0.Tidy() && a0.Objects() == a.Objects() && SameWords(a, a0) && a'.Tidy()
    requires SameGraph(a, r, a', r', phi) && OnlyReachable(a, g, r, a', phi)
    ensures SameGraph(a0, r, a', r', phi) && OnlyReachable(a0, g, r, a', phi)
  {
    SameGraphFrame(a, a0, r, a', r', phi);
    forall o | o in phi ensures (o < g && phi[o] == o) || Reaches(a0, r, o) {
      if Reaches(a, r, o) { ReachesFrame(a, a0, r, o); }
    }
  }

  /** a0 is the heap before the root was put above it, a after. */
  ghost predicate WithRoot(a0: Area, a: Area, y: Area, regs: int)
  {
    && a0.Tidy() && Newest(a0, regs) && regs >= y.lo
    && SameWords(a, a0) && a.Tidy() && a0.Objects() == a.Objects()
    && Upper(a, y, Ref(regs))
  }

  lemma BeforeCollection(a0: Area, a: Area, y: Area, regs: int)
    requires Sound(a0) && Newest(a0, regs) && regs >= y.lo && (y.lo in a0.Objects() || y.lo == a0.hi)
    requires a.lo == a0.lo && a.hi == a0.hi && a.hi + 1 < |a.h| == |a0.h|
    requires a.h == a0.h[a.hi := a.h[a.hi]][a.hi + 1 := Ref(regs)]
    requires y == Area(a.h, y.lo, a.hi)
    ensures WithRoot(a0, a, y, regs) && y.Valid() && y.Downward()
  {
    assert SameWords(a0, a);
    SoundFrame(a0, a);
    SoundArea(a, y, Ref(regs));
  }

  lemma CollectionOutcome(a0: Area, a: Area, y: Area, root: int, regs: int, chain: Chains, m: seq<Word>, top: int,
          a': Area)
    returns (regs': int, phi: map<int, int>)
    requires WithRoot(a0, a, y, regs) && y.Valid() && root == y.hi + 1
    requires Found(y, chain) && Compacted(y, chain.Keys, m, top) && a' == Area(m, a.lo, top)
    ensures a0.Tidy() && Sound(a') && (y.lo in a'.Objects() || y.lo == top)
    ensures 0 <= root < |m| && m[root] == Ref(regs') && Newest(a', regs') && regs' >= y.lo >= 0
    ensures SameGraph(a0, Ref(regs), a', Ref(regs'), phi)
    ensures OnlyReachable(a0, y.lo, Ref(regs), a', phi)
    ensures top <= y.hi
  {
    KeptBelow(y.h, chain.Keys, y.lo, y.hi, y.hi);
    regs', phi := AfterCollection(a, y, regs, chain, m, top, a');
    CollectedFrame(a, a0, y.lo, Ref(regs), a', Ref(regs'), phi);
  }

  /** Every object of a' is the image of one of a, and only objects below g, or reachable from r,
      have an image. */
  ghost predicate Retained(a: Area, g: int, r: Word, a': Area, phi: map<int, int>)
    requires a.Tidy() && a'.Tidy()
  {
    && (forall o :: o in phi ==> o < g || Reaches(a, r, o))
    && Onto(a', phi)
  }

  lemma RetainedCompose(a: Area, g: int, r: Word, a1: Area, r1: Word, phi: map<int, int>, a2: Area, r2: Word,
          psi: map<int, int>)
    requires a.Tidy() && a1.Tidy() && a2.Tidy()
    requires SameGraph(a, r, a1, r1, phi) && SameGraph(a1, r1, a2, r2, psi)
    requires Retained(a, g, r, a1, phi)
    requires Onto(a2, psi)
    ensures SameGraph(a, r, a2, r2, Compose(phi, psi))
    ensures Retained(a, g, r, a2, Compose(phi, psi))
  {
    SameGraphCompose(a, r, a1, r1, phi, a2, r2, psi);
    var chi := Compose(phi, psi);
    forall x | x in a2.Objects() ensures IsImage(chi, x) {
      assert IsImage(psi, x);
      var o1 :| o1 in psi && psi[o1] == x;
      assert IsImage(phi, o1);
      var o :| o in phi && phi[o] == o1;
      assert chi[o] == x;
    }
  }

  /** After two collections, of which the second may have been one of everything. */
  lemma BothCollected(a: Area, g: int, r: Word, a1: Area, r1: Word, phi: map<int, int>, a2: Area, r2: Word,
          psi: map<int, int>)
    requires a.Tidy() && a1.Tidy() && a2.Tidy() && r.Ref?
    requires SameGraph(a, r, a1, r1, phi) && SameGraph(a1, r1, a2, r2, psi)
    requires Retained(a, g, r, a1, phi) && Onto(a2, psi)
    ensures SameGraph(a, r, a2, r2, Compose(phi, psi))
    ensures Retained(a, g, r, a2, Compose(phi, psi))
    ensures Retained(a1, a1.lo, r1, a2, psi) ==> Retained(a, a.lo, r, a2, Compose(phi, psi))
  {
    RetainedCompose(a, g, r, a1, r1, phi, a2, r2, psi);
    if Retained(a1, a1.lo, r1, a2, psi) {
      forall o | o in Compose(phi, psi) ensures Reaches(a, r, o) {
        ReachesBack(a, r, a1, r1, phi, o);
      }
    }
  }

  /** The newest object is carried over with its header. */
  lemma NewestCarried(a: Area, regs: int, a': Area, regs': int, phi: map<int, int>)
    requires a.Tidy() && a'.Tidy() && SameGraph(a, Ref(regs), a', Ref(regs'), phi)
    ensures regs in a.Objects() && regs' in a'.Objects() && a'.h[regs'] == a.h[regs]
  {
    assert SameObject(a.h, a'.h, phi, regs);
  }
}
