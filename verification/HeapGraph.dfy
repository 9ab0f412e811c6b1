/** Sound heaps, and what it means that two heaps hold the same graph of objects. */
module HeapGraph {
  import opened HeapModel

  /** One object of a sound heap: no mark bits, and every pointer goes to a lower object. */
  ghost predicate SoundObject(h: seq<Word>, objects: set<int>, o: int)
  {
    && 0 <= o < |h| && h[o].Header? && o + h[o].size <= |h|
    && (!h[o].raw ==> forall p :: o < p < o + h[o].size ==>
          !h[p].Thread? && (h[p].Ref? ==> h[p].adr in objects && h[p].adr < o))
  }

  /** A heap: objects end to end, all of them sound. */
  ghost predicate Sound(a: Area)
  {
    match a case Area(h, lo, hi) =>
      && a.Tidy()
      && forall o {:trigger SoundObject(h, a.Objects(), o)} :: o in a.Objects() ==> SoundObject(h, a.Objects(), o)
  }

  /** A word that a register may hold. */
  ghost predicate Held(a: Area, w: Word)
    requires a.Tidy()
  {
    !w.Thread? && (w.Ref? ==> w.adr in a.Objects())
  }

  ghost function Follow(phi: map<int, int>, w: Word): Word {
    if w.Ref? && w.adr in phi then Ref(phi[w.adr]) else w
  }

  /** Word i of the object at o and of the object that phi takes it to. */
  ghost predicate SameWord(h: seq<Word>, h': seq<Word>, phi: map<int, int>, o: int, i: int)
    requires 0 <= o < |h| && h[o].Header? && 0 < i < h[o].size && o + i < |h|
    requires o in phi && 0 <= phi[o] + i < |h'|
  {
    && h'[phi[o] + i] == (if h[o].raw then h[o + i] else Follow(phi, h[o + i]))
    && (!h[o].raw && h[o + i].Ref? ==> h[o + i].adr in phi)
  }

  ghost predicate SameObject(h: seq<Word>, h': seq<Word>, phi: map<int, int>, o: int)
  {
    && o in phi
    && 0 <= o < |h| && h[o].Header? && o + h[o].size <= |h|
    && 0 <= phi[o] && phi[o] + h[o].size <= |h'| && phi[o] < |h'|
    && h'[phi[o]] == h[o]
    && (forall i :: 0 < i < h[o].size ==> SameWord(h, h', phi, o, i))
  }

  /** phi takes the objects of a part of the heap a that holds everything reachable from r to
      objects of a' with the same header, the same immediates and raw words, and the same
      pointers; r' is r redirected; and the order of addresses is kept. */
  ghost predicate SameGraph(a: Area, r: Word, a': Area, r': Word, phi: map<int, int>)
    requires a.Tidy() && a'.Tidy()
  {
    match a case Area(h, _, _) =>
      && (r.Ref? ==> r.adr in phi)
      && r' == Follow(phi, r)
      && (forall o :: o in phi ==> o in a.Objects() && phi[o] in a'.Objects())
      && (forall o {:trigger SameObject(h, a'.h, phi, o)} :: o in phi ==> SameObject(h, a'.h, phi, o))
      && (forall o, q :: o in phi && q in phi && o < q ==> phi[o] < phi[q])
  }

  ghost function Compose(phi: map<int, int>, psi: map<int, int>): map<int, int> {
    map o | o in phi && phi[o] in psi :: psi[phi[o]]
  }

  lemma SameObjectCompose(h: seq<Word>, h1: seq<Word>, h2: seq<Word>, phi: map<int, int>, psi: map<int, int>, o: int)
    requires SameObject(h, h1, phi, o) && phi[o] in psi && SameObject(h1, h2, psi, phi[o])
    ensures SameObject(h, h2, Compose(phi, psi), o)
  {
    var chi := Compose(phi, psi);
    forall i | 0 < i < h[o].size ensures SameWord(h, h2, chi, o, i) {
      assert SameWord(h, h1, phi, o, i) && SameWord(h1, h2, psi, phi[o], i);
    }
  }

  lemma SameGraphCompose(a: Area, r: Word, a1: Area, r1: Word, phi: map<int, int>, a2: Area, r2: Word,
          psi: map<int, int>)
    requires a.Tidy() && a1.Tidy() && a2.Tidy()
    requires SameGraph(a, r, a1, r1, phi) && SameGraph(a1, r1, a2, r2, psi)
    ensures SameGraph(a, r, a2, r2, Compose(phi, psi))
  {
    var chi := Compose(phi, psi);
    forall o | o in chi ensures SameObject(a.h, a2.h, chi, o) {
      assert SameObject(a.h, a1.h, phi, o) && SameObject(a1.h, a2.h, psi, phi[o]);
      SameObjectCompose(a.h, a1.h, a2.h, phi, psi, o);
    }
  }

  lemma {:induction false} TiledSplit(h: seq<Word>, b: int, g: int, f: int)
    requires Tiled(h, b, f) && (g in Starts(h, b, f) || g == f)
    ensures Tiled(h, b, g) && Tiled(h, g, f)
    ensures Starts(h, b, f) == Starts(h, b, g) + Starts(h, g, f)
    decreases f - b
  {
    if b < g {
      TiledSplit(h, b + h[b].size, g, f);
    }
  }

  lemma {:induction false} TiledJoin(h: seq<Word>, b: int, g: int, f: int)
    requires Tiled(h, b, g) && Tiled(h, g, f)
    ensures Tiled(h, b, f)
    ensures Starts(h, b, f) == Starts(h, b, g) + Starts(h, g, f)
    decreases g - b
  {
    if b < g {
      TiledJoin(h, b + h[b].size, g, f);
    }
  }

  lemma {:induction false} TiledFrame(h: seq<Word>, h': seq<Word>, b: int, g: int)
    requires Tiled(h, b, g) && g <= |h'|
    requires forall q :: b <= q < g ==> h'[q] == h[q]
    ensures Tiled(h', b, g) && Starts(h', b, g) == Starts(h, b, g)
    decreases g - b
  {
    if b < g {
      TiledFrame(h, h', b + h[b].size, g);
    }
  }

  ghost predicate IsImage(phi: map<int, int>, x: int) {
    exists o :: o in phi && phi[o] == x
  }

  /** Every object of a' is the image of something. */
  ghost predicate Onto(a': Area, phi: map<int, int>)
    requires a'.Tidy()
  {
    forall x {:trigger IsImage(phi, x)} :: x in a'.Objects() ==> IsImage(phi, x)
  }

  /** The image of a sound heap is sound: pointers still go down. */
  lemma SameGraphImageSound(a: Area, r: Word, a': Area, r': Word, phi: map<int, int>)
    requires Sound(a) && a'.Tidy() && SameGraph(a, r, a', r', phi)
    requires Onto(a', phi)
    ensures Sound(a')
  {
    forall x | x in a'.Objects() ensures SoundObject(a'.h, a'.Objects(), x) {
      assert IsImage(phi, x);
      var o :| o in phi && phi[o] == x;
      assert SameObject(a.h, a'.h, phi, o) && SoundObject(a.h, a.Objects(), o);
      forall p | !a'.h[x].raw && x < p < x + a'.h[x].size
        ensures !a'.h[p].Thread? && (a'.h[p].Ref? ==> a'.h[p].adr in a'.Objects() && a'.h[p].adr < x)
      {
        assert SameWord(a.h, a'.h, phi, o, p - x);
        assert !a.h[o + (p - x)].Thread?;
      }
    }
  }

  /** The object at o holds a pointer to t. */
  ghost predicate PointsTo(a: Area, o: int, t: int)
    requires a.Tidy()
  {
    o in a.Objects() && !a.h[o].raw && exists p :: o < p < o + a.h[o].size && a.h[p] == Ref(t)
  }

  ghost predicate PointerPath(a: Area, path: seq<int>)
    requires a.Tidy()
  {
    forall i :: 0 < i < |path| ==> PointsTo(a, path[i-1], path[i])
  }

  /** The object at t can be reached by following pointers from the word r. */
  ghost predicate Reaches(a: Area, r: Word, t: int)
    requires a.Tidy()
  {
    r.Ref? && exists path :: |path| > 0 && path[0] == r.adr && path[|path|-1] == t && PointerPath(a, path)
  }

  lemma {:induction false} SameGraphHoldsPath(a: Area, r: Word, a': Area, r': Word, phi: map<int, int>, path: seq<int>)
    requires a.Tidy() && a'.Tidy() && SameGraph(a, r, a', r', phi)
    requires |path| > 0 && path[0] in phi && PointerPath(a, path)
    ensures path[|path|-1] in phi
    decreases |path|
  {
    if |path| > 1 {
      var front := path[..|path|-1];
      assert PointerPath(a, front);
      SameGraphHoldsPath(a, r, a', r', phi, front);
      var o, t := path[|path|-2], path[|path|-1];
      assert PointsTo(a, o, t) && SameObject(a.h, a'.h, phi, o);
      var p :| o < p < o + a.h[o].size && a.h[p] == Ref(t);
      assert SameWord(a.h, a'.h, phi, o, p - o);
    }
  }

  /** Whatever can be reached is kept. */
  lemma SameGraphKeepsReachable(a: Area, r: Word, a': Area, r': Word, phi: map<int, int>, t: int)
    requires a.Tidy() && a'.Tidy() && SameGraph(a, r, a', r', phi)
    requires Reaches(a, r, t)
    ensures t in phi
  {
    var path :| |path| > 0 && path[0] == r.adr && path[|path|-1] == t && PointerPath(a, path);
    SameGraphHoldsPath(a, r, a', r', phi, path);
  }

  /** A path between kept objects was there before. */
  lemma {:induction false} PathBack(a: Area, r: Word, a': Area, r': Word, phi: map<int, int>, path: seq<int>)
    returns (back: seq<int>)
    requires a.Tidy() && a'.Tidy() && SameGraph(a, r, a', r', phi) && r.Ref?
    requires |path| > 0 && path[0] == r'.adr && PointerPath(a', path)
    ensures |back| == |path| && back[0] == r.adr && PointerPath(a, back)
    ensures forall i :: 0 <= i < |path| ==> back[i] in phi && phi[back[i]] == path[i]
    decreases |path|
  {
    hide Tiled, Starts;
    if |path| == 1 {
      return [r.adr];
    }
    var k := |path| - 1;
    assert PointerPath(a', path[..k]);
    back := PathBack(a, r, a', r', phi, path[..k]);
    var o := back[k-1];
    assert PointsTo(a', path[k-1], path[k]) && SameObject(a.h, a'.h, phi, o) && path[..k][k-1] == path[k-1];
    var p :| phi[o] < p < phi[o] + a'.h[phi[o]].size && a'.h[p] == Ref(path[k]);
    assert SameWord(a.h, a'.h, phi, o, p - phi[o]);
    var t := a.h[o + (p - phi[o])].adr;
    assert PointsTo(a, o, t);
    back := back + [t];
  }

  /** What can be reached afterwards is the image of something that could be reached. */
  lemma ReachesBack(a: Area, r: Word, a': Area, r': Word, phi: map<int, int>, o: int)
    requires a.Tidy() && a'.Tidy() && SameGraph(a, r, a', r', phi) && r.Ref?
    requires o in phi && Reaches(a', r', phi[o])
    ensures Reaches(a, r, o)
  {
    var path :| |path| > 0 && path[0] == r'.adr && path[|path|-1] == phi[o] && PointerPath(a', path);
    var back := PathBack(a, r, a', r', phi, path);
    var q := back[|path|-1];
    assert q in phi && phi[q] == phi[o];
    assert q == o;
  }

  lemma LinkTarget(y: Area, a: Area, o: int, t: int)
    requires y.Valid() && a.Tidy() && a.h == y.h && y.Objects() <= a.Objects() && y.Link(o, t)
    ensures t in y.Objects()
    ensures o == y.hi ==> y.h[y.hi+1] == Ref(t)
    ensures o != y.hi ==> PointsTo(a, o, t)
  {
    var p :| y.Slot(o, p) && y.h[p] == Ref(t) && t >= y.lo;
  }

  /** Reachability inside an area, from the root slot, is reachability from what the root holds. */
  lemma AreaReaches(y: Area, a: Area, t: int)
    requires y.Valid() && a.Tidy() && a.h == y.h && y.Objects() <= a.Objects()
    requires y.Reachable(t) && t != y.hi
    ensures Reaches(a, y.h[y.hi+1], t)
  {
    var path :| y.Path(path) && path[|path|-1] == t;
    var tail := path[1..];
    assert y.Link(path[0], path[1]);
    LinkTarget(y, a, path[0], path[1]);
    forall i | 0 < i < |tail| ensures PointsTo(a, tail[i-1], tail[i]) {
      assert y.Link(path[i-1], path[i]) && y.Link(path[i], path[i+1]);
      LinkTarget(y, a, path[i-1], path[i]);
      LinkTarget(y, a, path[i], path[i+1]);
    }
    assert PointerPath(a, tail) && tail[0] == y.h[y.hi+1].adr && tail[|tail|-1] == t;
  }

  /** The same words between the same bounds. */
  ghost predicate SameWords(a: Area, a0: Area)
  {
    && a.lo == a0.lo && a.hi == a0.hi && a.hi <= |a.h| && a.hi <= |a0.h|
    && forall q :: 0 <= a.lo <= q < a.hi ==> a0.h[q] == a.h[q]
  }

  lemma SoundFrame(a: Area, a0: Area)
    requires Sound(a) && SameWords(a, a0)
    ensures Sound(a0) && a0.Objects() == a.Objects()
  {
    TiledFrame(a.h, a0.h, a.lo, a.hi);
    forall o | o in a0.Objects() ensures SoundObject(a0.h, a0.Objects(), o) {
      assert SoundObject(a.h, a.Objects(), o);
    }
  }

  lemma ReachesFrame(a: Area, a0: Area, r: Word, t: int)
    requires a.Tidy() && a0.Tidy() && a0.Objects() == a.Objects() && SameWords(a, a0)
    requires Reaches(a, r, t)
    ensures Reaches(a0, r, t)
  {
    var path :| |path| > 0 && path[0] == r.adr && path[|path|-1] == t && PointerPath(a, path);
    forall i | 0 < i < |path| ensures PointsTo(a0, path[i-1], path[i]) {
      assert PointsTo(a, path[i-1], path[i]);
      var o := path[i-1];
      var p :| o < p < o + a.h[o].size && a.h[p] == Ref(path[i]);
      assert a0.h[p] == Ref(path[i]);
    }
    assert PointerPath(a0, path);
  }

  lemma SameGraphFrame(a: Area, a0: Area, r: Word, a': Area, r': Word, phi: map<int, int>)
    requires a.Tidy() && a0.Tidy() && a0.Objects() == a.Objects() && SameWords(a, a0)
    requires a'.Tidy() && SameGraph(a, r, a', r', phi)
    ensures SameGraph(a0, r, a', r', phi)
  {
    forall o | o in phi ensures SameObject(a0.h, a'.h, phi, o) {
      assert SameObject(a.h, a'.h, phi, o);
      forall i | 0 < i < a.h[o].size ensures SameWord(a0.h, a'.h, phi, o, i) {
        assert SameWord(a.h, a'.h, phi, o, i);
      }
    }
  }

  /** The object at o is the newest one. */
  ghost predicate Newest(a: Area, o: int)
    requires a.Tidy()
  {
    o in a.Objects() && o + a.h[o].size == a.hi
  }

  /** The whole of a has been carried over to a', with regs going to regs'. */
  ghost predicate Transplanted(a: Area, regs: int, a': Area, regs': int, phi: map<int, int>)
    requires a.Tidy() && a'.Tidy()
  {
    && SameGraph(a, Ref(regs), a', Ref(regs'), phi)
    && Newest(a', regs')
    && Onto(a', phi)
  }

  /** Putting an object on top of a sound heap whose fields all refer into that heap. */
  lemma Grown(a: Area, a': Area, o: int)
    requires Sound(a) && o == a.hi && a'.lo == a.lo && o < a'.hi <= |a'.h|
    requires forall q :: a.lo <= q < a.hi ==> a'.h[q] == a.h[q]
    requires o < |a'.h| && a'.h[o].Header? && 1 <= a'.h[o].size && a'.hi == o + a'.h[o].size
    requires !a'.h[o].raw ==> forall p :: o < p < a'.hi ==> Held(a, a'.h[p])
    ensures Sound(a') && a'.Objects() == a.Objects() + {o}
  {
    TiledFrame(a.h, a'.h, a.lo, a.hi);
    assert Tiled(a'.h, a'.hi, a'.hi) && Starts(a'.h, a'.hi, a'.hi) == {};
    assert Starts(a'.h, o, a'.hi) == {o};
    TiledJoin(a'.h, a.lo, o, a'.hi);
    forall x | x in a'.Objects() ensures SoundObject(a'.h, a'.Objects(), x) {
      if x != o { assert SoundObject(a.h, a.Objects(), x); }
    }
  }

  /** A heap stays sound when its newest object is dropped. */
  lemma Shrunk(a: Area, o: int)
    requires Sound(a) && Newest(a, o)
    ensures Sound(Area(a.h, a.lo, o)) && a.Objects() == Area(a.h, a.lo, o).Objects() + {o}
  {
    var b := Area(a.h, a.lo, o);
    TiledSplit(a.h, a.lo, o, a.hi);
    assert Tiled(a.h, a.hi, a.hi) && Starts(a.h, a.hi, a.hi) == {};
    assert Starts(a.h, o, a.hi) == {o};
    forall x | x in b.Objects() ensures SoundObject(b.h, b.Objects(), x) {
      assert SoundObject(a.h, a.Objects(), x);
    }
  }

  /** Replacing a pointer-carrying word by an immediate. */
  lemma Overwritten(a: Area, a': Area, o: int, p: int, w: Word)
    requires Sound(a) && o in a.Objects() && o < p < o + a.h[o].size && 0 <= p < |a.h| && w.Imm?
    requires a'.lo == a.lo && a'.hi == a.hi && a'.h == a.h[p := w]
    ensures Sound(a') && a'.Objects() == a.Objects()
  {
    OverwrittenTiled(a.h, a.lo, a.hi, o, p, w);
    forall x | x in a'.Objects() ensures SoundObject(a'.h, a'.Objects(), x) {
      assert SoundObject(a.h, a.Objects(), x);
      if x < o { StartsApart(a.h, a.lo, a.hi, x, o); }
      if o < x { StartsApart(a.h, a.lo, a.hi, o, x); }
    }
  }

  lemma {:induction false} OverwrittenTiled(h: seq<Word>, b: int, f: int, o: int, p: int, w: Word)
    requires Tiled(h, b, f) && o in Starts(h, b, f) && o < p < o + h[o].size && 0 <= p < |h|
    ensures Tiled(h[p := w], b, f) && Starts(h[p := w], b, f) == Starts(h, b, f)
    decreases f - b
  {
    if o == b {
      TiledFrame(h, h[p := w], b + h[b].size, f);
    } else {
      OverwrittenTiled(h, b + h[b].size, f, o, p, w);
    }
  }

  /** Overwriting a header ends the chain of objects. */
  lemma {:induction false} BrokenTiled(h: seq<Word>, b: int, f: int, q: int, w: Word)
    requires Tiled(h, b, f) && q in Starts(h, b, f) && !w.Header?
    ensures !Tiled(h[q := w], b, f)
    decreases f - b
  {
    if q != b {
      BrokenTiled(h, b + h[b].size, f, q, w);
    }
  }
}
