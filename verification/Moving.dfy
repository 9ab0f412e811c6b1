/** Moving the whole heap to another address: every pointer in it is shifted by the same amount. */
module Moving {
  import opened HeapModel
  import opened HeapGraph

  function Shift(w: Word, d: int): Word {
    if w.Ref? then Ref(w.adr + d) else w
  }

  /** The words of [lo, hi) in h are found d words further in m. */
  ghost predicate CopiedBlock(h: seq<Word>, lo: int, hi: int, m: seq<Word>, d: int)
  {
    && 0 <= lo <= hi <= |h| && 0 <= lo + d && hi + d <= |m|
    && forall q :: lo <= q < hi ==> m[q + d] == h[q]
  }

  lemma CopiedFrom(h: seq<Word>, lo: int, hi: int, m: seq<Word>, d: int)
    requires 0 <= lo <= hi <= |h| && 0 <= lo + d && hi + d <= |m|
    requires forall p :: lo + d <= p < hi + d ==> m[p] == h[p - d]
    ensures CopiedBlock(h, lo, hi, m, d)
  {
  }

  lemma CopiedPart(a: Area, hi: int, m: seq<Word>, d: int)
    requires a.Tidy() && a.hi <= hi && CopiedBlock(a.h, a.lo, hi, m, d)
    ensures CopiedBlock(a.h, a.lo, a.hi, m, d)
    ensures d == 0 ==> SameWords(a, Area(m, a.lo, a.hi))
  {
    forall q | d == 0 && 0 <= a.lo <= q < a.hi ensures m[q] == a.h[q] {
      assert m[q + d] == a.h[q];
    }
  }

  /** The object that was at o in h, at o + d in m. */
  ghost predicate ShiftedObject(h: seq<Word>, m: seq<Word>, d: int, o: int)
  {
    && 0 <= o < |h| && h[o].Header? && 1 <= h[o].size && o + h[o].size <= |h|
    && 0 <= o + d && o + d + h[o].size <= |m|
    && m[o + d] == h[o]
    && (forall q :: o < q < o + h[o].size ==> m[q + d] == if h[o].raw then h[q] else Shift(h[q], d))
  }

  ghost predicate AllShifted(a: Area, m: seq<Word>, d: int)
    requires a.Tidy()
  {
    && 0 <= a.lo + d && a.hi + d <= |m|
    && forall o {:trigger ShiftedObject(a.h, m, d, o)} :: o in a.Objects() ==> ShiftedObject(a.h, m, d, o)
  }

  /** Pointers have been fixed in the objects below `pos`; the rest is a plain copy. */
  ghost predicate Fixed(h: seq<Word>, b: int, f: int, m: seq<Word>, d: int, pos: int)
    requires Tiled(h, b, f)
  {
    && 0 <= b + d && f + d <= |m|
    && (pos - d in Starts(h, b, f) || pos - d == f)
    && (forall o :: o in Starts(h, b, f) && o < pos - d ==> ShiftedObject(h, m, d, o))
    && (forall q :: pos - d <= q < f ==> m[q + d] == h[q])
  }

  ghost function ShiftAll(h: seq<Word>, b: int, f: int, d: int): map<int, int>
    requires Tiled(h, b, f)
  {
    map o | o in Starts(h, b, f) :: o + d
  }

  lemma FixedNext(h: seq<Word>, b: int, f: int, m: seq<Word>, m': seq<Word>, d: int, pos: int, next: int)
    requires Tiled(h, b, f) && Fixed(h, b, f, m, d, pos) && pos - d < f && |m'| == |m|
    requires m[pos].Header? && next == pos + m[pos].size
    requires forall q :: 0 <= q < |m| && !(pos < q < next) ==> m'[q] == m[q]
    requires forall q :: pos < q < next ==> m'[q] == if m[pos].raw then m[q] else Shift(m[q], d)
    ensures Fixed(h, b, f, m', d, next)
  {
    var s := pos - d;
    assert m[s + d] == h[s];
    StartsNext(h, b, f, s);
    forall o | o in Starts(h, b, f) && o < next - d ensures ShiftedObject(h, m', d, o) {
      if o < s {
        assert ShiftedObject(h, m, d, o);
        StartsApart(h, b, f, o, s);
      } else {
        if s < o { StartsApart(h, b, f, s, o); }
        forall q | o < q < o + h[o].size ensures m'[q + d] == if h[o].raw then h[q] else Shift(h[q], d) {
          assert m[q + d] == h[q];
        }
      }
    }
  }

  lemma {:induction false} ShiftedTiled(h: seq<Word>, b: int, f: int, m: seq<Word>, d: int, b': int, f': int)
    requires Tiled(h, b, f) && 0 <= b' == b + d && f' == f + d && f' <= |m|
    requires forall o :: o in Starts(h, b, f) ==> ShiftedObject(h, m, d, o)
    ensures Tiled(m, b', f')
    decreases f - b
  {
    if b < f {
      assert ShiftedObject(h, m, d, b);
      ShiftedTiled(h, b + h[b].size, f, m, d, b' + m[b'].size, f');
    }
  }

  lemma {:induction false} ShiftedStart(h: seq<Word>, b: int, f: int, m: seq<Word>, d: int, b': int, f': int, o: int)
    requires Tiled(h, b, f) && Tiled(m, b', f') && b' == b + d && f' == f + d
    requires forall o :: o in Starts(h, b, f) ==> ShiftedObject(h, m, d, o)
    requires o in Starts(h, b, f)
    ensures o + d in Starts(m, b', f')
    decreases f - b
  {
    assert ShiftedObject(h, m, d, b);
    if o != b {
      ShiftedStart(h, b + h[b].size, f, m, d, b' + m[b'].size, f', o);
    }
  }

  lemma {:induction false} ShiftedBack(h: seq<Word>, b: int, f: int, m: seq<Word>, d: int, b': int, f': int, x: int)
    requires Tiled(h, b, f) && Tiled(m, b', f') && b' == b + d && f' == f + d
    requires forall o :: o in Starts(h, b, f) ==> ShiftedObject(h, m, d, o)
    requires x in Starts(m, b', f')
    ensures x - d in Starts(h, b, f)
    decreases f - b
  {
    assert ShiftedObject(h, m, d, b);
    if x != b' {
      ShiftedBack(h, b + h[b].size, f, m, d, b' + m[b'].size, f', x);
    }
  }

  lemma ShiftedSame(a: Area, m: seq<Word>, d: int, o: int)
    requires Sound(a) && o in a.Objects() && ShiftedObject(a.h, m, d, o)
    ensures SameObject(a.h, m, ShiftAll(a.h, a.lo, a.hi, d), o)
  {
    var h, phi := a.h, ShiftAll(a.h, a.lo, a.hi, d);
    assert SoundObject(h, a.Objects(), o);
    forall i | 0 < i < h[o].size ensures SameWord(h, m, phi, o, i) {
      var q := o + i;
      assert m[q + d] == if h[o].raw then h[q] else Shift(h[q], d);
    }
  }

  lemma ShiftedOnto(a: Area, a': Area, d: int)
    requires a.Tidy() && a'.Tidy() && a'.lo == a.lo + d && a'.hi == a.hi + d
    requires AllShifted(a, a'.h, d)
    ensures Onto(a', ShiftAll(a.h, a.lo, a.hi, d))
  {
    var phi := ShiftAll(a.h, a.lo, a.hi, d);
    forall x | x in a'.Objects() ensures IsImage(phi, x) {
      ShiftedBack(a.h, a.lo, a.hi, a'.h, d, a'.lo, a'.hi, x);
      assert phi[x - d] == x;
    }
  }

  lemma ShiftedGraph(a: Area, regs: int, a': Area, d: int, regs': int)
    requires Sound(a) && Newest(a, regs) && regs' == regs + d
    requires a'.lo == a.lo + d && a'.hi == a.hi + d && AllShifted(a, a'.h, d)
    ensures a'.Tidy() && SameGraph(a, Ref(regs), a', Ref(regs'), ShiftAll(a.h, a.lo, a.hi, d))
  {
    var phi := ShiftAll(a.h, a.lo, a.hi, d);
    ShiftedTiled(a.h, a.lo, a.hi, a'.h, d, a'.lo, a'.hi);
    forall o | o in phi ensures phi[o] in a'.Objects() && SameObject(a.h, a'.h, phi, o) {
      ShiftedSame(a, a'.h, d, o);
      ShiftedStart(a.h, a.lo, a.hi, a'.h, d, a'.lo, a'.hi, o);
    }
  }

  /** The moved heap is sound and holds the same graph. */
  lemma FixedDone(a: Area, regs: int, a': Area, d: int, regs': int) returns (phi: map<int, int>)
    requires Sound(a) && Newest(a, regs) && regs' == regs + d
    requires a'.lo == a.lo + d && a'.hi == a.hi + d && AllShifted(a, a'.h, d)
    ensures Sound(a') && Transplanted(a, regs, a', regs', phi)
  {
    phi := ShiftAll(a.h, a.lo, a.hi, d);
    ShiftedGraph(a, regs, a', d, regs');
    ShiftedOnto(a, a', d);
    SameGraphImageSound(a, Ref(regs), a', Ref(regs'), phi);
    assert SameObject(a.h, a'.h, phi, regs);
  }

  lemma FixedStart(a: Area, m: seq<Word>, d: int, pos: int)
    requires a.Tidy() && pos == a.lo + d && CopiedBlock(a.h, a.lo, a.hi, m, d)
    ensures Fixed(a.h, a.lo, a.hi, m, d, pos)
  {
  }

  /** The walk is at a header. */
  lemma FixedHere(a: Area, m: seq<Word>, d: int, pos: int)
    requires a.Tidy() && Fixed(a.h, a.lo, a.hi, m, d, pos) && pos < a.hi + d
    ensures 0 <= pos < |m| && m[pos] == a.h[pos - d] && m[pos].Header? && 1 <= m[pos].size
         && pos + m[pos].size <= a.hi + d
  {
    assert m[(pos - d) + d] == a.h[pos - d];
  }

  lemma FixedAll(a: Area, m: seq<Word>, d: int, pos: int)
    requires a.Tidy() && Fixed(a.h, a.lo, a.hi, m, d, pos) && pos == a.hi + d
    ensures AllShifted(a, m, d)
  {
  }

  /** A heap that is where it was. */
  lemma NotMoved(a: Area, regs: int, a': Area) returns (phi: map<int, int>)
    requires Sound(a) && Newest(a, regs) && SameWords(a, a')
    ensures Sound(a') && Transplanted(a, regs, a', regs, phi)
  {
    phi := map o | o in a.Objects() :: o;
    SoundFrame(a, a');
    forall o | o in phi ensures SameObject(a.h, a'.h, phi, o) {
      assert SoundObject(a.h, a.Objects(), o);
      forall i | 0 < i < a.h[o].size ensures SameWord(a.h, a'.h, phi, o, i) {
        var q := o + i;
        assert a'.h[q] == a.h[q];
        assert !a.h[o].raw && a.h[q].Ref? ==> a.h[q].adr in a.Objects();
      }
    }
    forall x | x in a'.Objects() ensures IsImage(phi, x) {
      assert phi[x] == x;
    }
  }
}
