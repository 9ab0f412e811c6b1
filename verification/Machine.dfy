/** The registers of the machine, and the collection they are the roots of. */
module MachineObject {
  import opened HeapModel
  import opened HeapGraph
  import opened Collection
  import opened HeapObject

  /** Words that may be held before and after: phi redirects each of them. */
  ghost predicate AllFollow(phi: map<int, int>, ws: seq<Word>, ws': seq<Word>)
  {
    |ws'| == |ws| && forall i :: 0 <= i < |ws| ==> ws'[i] == Follow(phi, ws[i])
  }

  ghost predicate AllHeld(a: Area, ws: seq<Word>)
    requires a.Tidy()
  {
    forall i :: 0 <= i < |ws| ==> Held(a, ws[i])
  }

  /** The heap below the object that held the registers, before and after: every register still
      reaches the same graph. */
  ghost predicate RegistersKept(a: Area, ws: seq<Word>, a': Area, ws': seq<Word>, phi: map<int, int>)
    requires a.Tidy() && a'.Tidy()
  {
    |ws'| == |ws| && forall i :: 0 <= i < |ws| ==> SameGraph(a, ws[i], a', ws'[i], phi)
  }

  ghost function Below(phi: map<int, int>, o: int): map<int, int> {
    map x | x in phi && x < o :: phi[x]
  }

  /** The fields of the object that held the registers. */
  lemma CarriedFields(a: Area, regs: int, a': Area, regs': int, phi: map<int, int>, ws: seq<Word>, ws': seq<Word>)
    requires Sound(a) && a'.Tidy() && SameGraph(a, Ref(regs), a', Ref(regs'), phi)
    requires regs in a.Objects() && a.h[regs] == Header(TTUPLE, false, |ws| + 1) && |ws'| == |ws|
    requires a.h[regs+1..regs+1+|ws|] == ws
    requires regs' + 1 + |ws| <= |a'.h| && regs' >= 0 && a'.h[regs'+1..regs'+1+|ws|] == ws'
    ensures AllFollow(phi, ws, ws')
    ensures forall i :: 0 <= i < |ws| && ws[i].Ref? ==> ws[i].adr in phi && ws[i].adr < regs
  {
    assert SameObject(a.h, a'.h, phi, regs) && SoundObject(a.h, a.Objects(), regs);
    forall i | 0 <= i < |ws|
      ensures ws'[i] == Follow(phi, ws[i])
      ensures ws[i].Ref? ==> ws[i].adr in phi && ws[i].adr < regs
    {
      assert SameWord(a.h, a'.h, phi, regs, i + 1);
      assert ws[i] == a.h[regs+1..regs+1+|ws|][i] == a.h[regs + (i + 1)];
      assert ws'[i] == a'.h[regs'+1..regs'+1+|ws|][i] == a'.h[regs' + (i + 1)];
    }
  }

  /** Dropping the newest object on both sides. */
  lemma DropNewest(a: Area, regs: int, a': Area, regs': int, phi: map<int, int>, w: Word)
    requires Sound(a) && Newest(a, regs) && Sound(a') && Newest(a', regs')
    requires SameGraph(a, Ref(regs), a', Ref(regs'), phi)
    requires w.Ref? ==> w.adr in phi && w.adr < regs
    ensures Area(a.h, a.lo, regs).Tidy() && Area(a'.h, a'.lo, regs').Tidy()
    ensures SameGraph(Area(a.h, a.lo, regs), w, Area(a'.h, a'.lo, regs'), Follow(phi, w), Below(phi, regs))
  {
    var psi := Below(phi, regs);
    Shrunk(a, regs);
    Shrunk(a', regs');
    forall o | o in psi ensures SameObject(a.h, a'.h, psi, o) {
      assert SameObject(a.h, a'.h, phi, o) && SoundObject(a.h, a.Objects(), o);
      forall i | 0 < i < a.h[o].size ensures SameWord(a.h, a'.h, psi, o, i) {
        assert SameWord(a.h, a'.h, phi, o, i);
        var p := o + i;
        assert !a.h[o].raw && a.h[p].Ref? ==> a.h[p].adr < o;
      }
    }
  }

  /** The object at o can be reached from one of these words. */
  ghost predicate RootsReach(a: Area, ws: seq<Word>, o: int)
    requires a.Tidy()
  {
    exists i :: 0 <= i < |ws| && Reaches(a, ws[i], o)
  }

  /** Nothing from g on is kept but what can be reached from these words. */
  ghost predicate OnlyRoots(a: Area, g: int, ws: seq<Word>, a': Area, phi: map<int, int>)
    requires a.Tidy() && a'.Tidy()
  {
    && (forall o {:trigger RootsReach(a, ws, o)} :: o in phi && o >= g ==> RootsReach(a, ws, o))
    && Onto(a', phi)
  }

  /** What the object that held the registers reaches, one of them does. */
  lemma FieldReaches(a: Area, regs: int, ws: seq<Word>, o: int)
    requires Sound(a) && Newest(a, regs) && a.h[regs] == Header(TTUPLE, false, |ws| + 1)
    requires a.h[regs+1..regs+1+|ws|] == ws && Reaches(a, Ref(regs), o) && o < regs
    ensures RootsReach(a, ws, o)
  {
    var path :| |path| > 0 && path[0] == regs && path[|path|-1] == o && PointerPath(a, path);
    var tail := path[1..];
    assert PointsTo(a, path[0], path[1]);
    var p :| regs < p < regs + a.h[regs].size && a.h[p] == Ref(path[1]);
    var i := p - regs - 1;
    assert ws[i] == a.h[regs+1..regs+1+|ws|][i] == Ref(path[1]);
    forall k | 0 < k < |tail| ensures PointsTo(a, tail[k-1], tail[k]) {
      assert PointsTo(a, path[k], path[k+1]);
    }
    assert PointerPath(a, tail) && tail[0] == ws[i].adr && tail[|tail|-1] == o;
    assert Reaches(a, ws[i], o);
  }

  /** Pointers go down, so what is below the newest object is all that matters below it. */
  lemma PointsBelow(a: Area, o: int, x: int, t: int)
    requires Sound(a) && Newest(a, o) && Area(a.h, a.lo, o).Tidy() && PointsTo(a, x, t) && x < o
    ensures PointsTo(Area(a.h, a.lo, o), x, t) && t < o
  {
    Shrunk(a, o);
    assert SoundObject(a.h, a.Objects(), x);
  }

  lemma {:induction false} PathBelow(a: Area, o: int, path: seq<int>)
    requires Sound(a) && Newest(a, o) && Area(a.h, a.lo, o).Tidy() && |path| > 0 && path[0] < o && PointerPath(a, path)
    ensures PointerPath(Area(a.h, a.lo, o), path) && path[|path|-1] < o
    decreases |path|
  {
    assert a.Tidy();
    hide Sound, PointsTo;
    if |path| > 1 {
      var front, n, low := path[..|path|-1], |path|, Area(a.h, a.lo, o);
      forall k | 0 < k < |front| ensures PointsTo(a, front[k-1], front[k]) {
        assert PointsTo(a, path[k-1], path[k]);
      }
      PathBelow(a, o, front);
      assert PointsTo(a, path[n-2], path[n-1]);
      PointsBelow(a, o, path[n-2], path[n-1]);
      forall k | 0 < k < n ensures PointsTo(low, path[k-1], path[k]) {
        if k < n - 1 { assert PointsTo(low, front[k-1], front[k]); }
      }
    }
  }

  lemma ReachesBelow(a: Area, o: int, w: Word, t: int)
    requires Sound(a) && Newest(a, o) && Reaches(a, w, t) && w.adr < o
    ensures Area(a.h, a.lo, o).Tidy() && Reaches(Area(a.h, a.lo, o), w, t)
  {
    Shrunk(a, o);
    var path :| |path| > 0 && path[0] == w.adr && path[|path|-1] == t && PointerPath(a, path);
    PathBelow(a, o, path);
  }

  /** Once the object that held the registers has been dropped: nothing from g on is kept but what a register
      reaches. */
  lemma RootsOnly(full: Area, regs: int, g: int, full': Area, at: int, whole: map<int, int>, ws: seq<Word>,
          a: Area, a': Area)
    requires Sound(full) && Newest(full, regs) && Sound(full') && Newest(full', at)
    requires SameGraph(full, Ref(regs), full', Ref(at), whole) && Retained(full, g, Ref(regs), full', whole)
    requires PutOnTop(a.h, regs, full.h, full.hi, TTUPLE, ws)
    requires Sound(a) && a.lo == full.lo && a.hi == regs && AllHeld(a, ws) && a' == Area(full'.h, full'.lo, at)
    ensures a'.Tidy() && OnlyRoots(a, g, ws, a', Below(whole, regs))
  {
    var low, phi := Area(full.h, full.lo, regs), Below(whole, regs);
    Shrunk(full, regs);
    Shrunk(full', at);
    forall q | 0 <= a.lo <= q < a.hi ensures a.h[q] == full.h[q] {
      assert a.h[q] == full.h[..a.hi][q];
    }
    SoundFrame(low, a);
    forall o | o in phi && o >= g ensures RootsReach(a, ws, o) {
      FieldReaches(full, regs, ws, o);
      var i :| 0 <= i < |ws| && Reaches(full, ws[i], o);
      assert Held(a, ws[i]);
      ReachesBelow(full, regs, ws[i], o);
      ReachesFrame(low, a, ws[i], o);
    }
    forall x | x in a'.Objects() ensures IsImage(phi, x) {
      assert IsImage(whole, x);
      var o :| o in whole && whole[o] == x;
      assert o in full.Objects() && whole[regs] == at;
      assert o != regs && o in low.Objects();
      assert phi[o] == x;
    }
  }

  /** The outcome of a collection rooted at the object that held the registers, once that object
      has been dropped again. */
  lemma RootsKept(full: Area, regs: int, full': Area, at: int, whole: map<int, int>, ws: seq<Word>, ws': seq<Word>,
          a: Area, a': Area)
    requires Sound(full) && Newest(full, regs) && Sound(full') && Newest(full', at)
    requires SameGraph(full, Ref(regs), full', Ref(at), whole)
    requires PutOnTop(a.h, regs, full.h, full.hi, TTUPLE, ws)
    requires at + 1 + |ws| <= |full'.h| && full'.h[at+1..at+1+|ws|] == ws' && |ws| == |ws'|
    requires a.Tidy() && a.lo == full.lo && a.hi == regs
    requires a' == Area(full'.h, full'.lo, at) && AllHeld(a, ws)
    ensures Sound(a') && AllHeld(a', ws') && RegistersKept(a, ws, a', ws', Below(whole, regs))
  {
    var phi, low := Below(whole, regs), Area(full.h, full.lo, regs);
    CarriedFields(full, regs, full', at, whole, ws, ws');
    Shrunk(full, regs);
    Shrunk(full', at);
    assert SameWords(low, a) by {
      forall q | 0 <= a.lo <= q < a.hi ensures a.h[q] == full.h[q] {
        assert a.h[q] == full.h[..a.hi][q];
      }
    }
    SoundFrame(low, a);
    forall i | 0 <= i < |ws|
      ensures SameGraph(a, ws[i], a', ws'[i], phi) && Held(a', ws'[i])
    {
      DropNewest(full, regs, full', at, whole, ws[i]);
      SameGraphFrame(low, a, ws[i], a', ws'[i], phi);
      assert Held(a, ws[i]);
    }
  }

  class Machine {
    const heap: Heap
    const R: array<Word>
    var self: Word    // the object being run; `this` in the C code

    constructor (heap: Heap)
      requires heap.Valid()
      ensures this.heap == heap && fresh(R) && Valid()
    {
      this.heap := heap;
      R := new Word[NR + CR](_ => IFALSE);
      self := IFALSE;
    }

    ghost predicate Valid()
      reads this, R, heap, heap.mem
    {
      && R != heap.mem && R.Length == NR + CR
      && heap.Valid()
      && AllHeld(heap.Whole(), Roots())
    }

    /** All the words the machine holds outside the heap. */
    ghost function Roots(): seq<Word>
      reads this, R
    {
      R[..] + [self]
    }

    /** Makes room for ws words: nothing happens if they fit, and otherwise the registers are stored
        as an object on top of the heap, the heap is collected from it, and they are read back. */
    method CollectGarbage(ws: nat, place: nat) returns (done: bool, ghost phi: map<int, int>)
      requires Valid()
      requires heap.fp + NR + CR + 3 < heap.end + GCPAD
      modifies this, R, heap, heap.mem
      ensures done == (ws == 0 || old(heap.fp) + ws >= old(heap.end) - MEMPAD)
      ensures heap.mem == old(heap.mem) || fresh(heap.mem)
      ensures Valid()
      ensures !done ==> old(heap.fp) == heap.fp && heap.mem[..] == old(heap.mem[..]) && Roots() == old(Roots())
      ensures done ==> RegistersKept(old(heap.Whole()), old(Roots()), heap.Whole(), Roots(), phi)
      ensures done ==>
                var g := if ws == 0 then old(heap.begin) else old(heap.genstart);
                OnlyRoots(old(heap.Whole()), g, old(Roots()), heap.Whole(), phi)
      ensures done && !heap.sandboxp ==> heap.end - heap.fp >= ws + MEMPAD
    {
      hide RegistersKept, OnlyRoots, SameGraph, Retained, SoundObject, AllHeld;
      phi := map[];
      if ws != 0 && heap.fp + ws < heap.end - MEMPAD {
        return false, phi;
      }
      ghost var a, roots, g := heap.Whole(), Roots(), if ws == 0 then heap.begin else heap.genstart;
      var at;
      ghost var full, whole;
      at, full, whole := SaveAndCollect(ws, place);
      ghost var full' := heap.Whole();
      Restore(at);
      heap.fp := at;
      phi := Below(whole, a.hi);
      RootsKept(full, a.hi, full', at, whole, roots, Roots(), a, heap.Whole());
      RootsOnly(full, a.hi, g, full', at, whole, roots, a, heap.Whole());
      done := true;
    }

    /** Stores the registers as an object on top of the heap and collects the heap from it. */
    method SaveAndCollect(ws: nat, place: nat) returns (at: nat, ghost full: Area, ghost whole: map<int, int>)
      requires Valid()
      requires heap.fp + NR + CR + 3 < heap.end + GCPAD
      modifies heap, heap.mem
      ensures heap.mem == old(heap.mem) || fresh(heap.mem)
      ensures R != heap.mem && unchanged(R) && heap.Valid() && Newest(heap.Whole(), at) && heap.genstart == at
      ensures Sound(full) && Newest(full, old(heap.fp)) && full.lo == old(heap.begin)
      ensures PutOnTop(old(heap.mem[..]), old(heap.fp), full.h, full.hi, TTUPLE, Roots())
      ensures heap.mem[at] == Header(TTUPLE, false, |Roots()| + 1)
      ensures SameGraph(full, Ref(old(heap.fp)), heap.Whole(), Ref(at), whole)
      ensures Retained(full, if ws == 0 then old(heap.begin) else old(heap.genstart), Ref(old(heap.fp)),
                       heap.Whole(), whole)
      ensures !heap.sandboxp ==> heap.end - at >= ws + MEMPAD
    {
      ghost var a := heap.Whole();
      forall w | w in Roots() ensures Held(a, w) {
        var i :| 0 <= i < |Roots()| && Roots()[i] == w;
      }
      var regs := heap.New(TTUPLE, R[..] + [self]);
      full := heap.Whole();
      at, whole := heap.Gc(ws, regs, place);
      NewestCarried(full, regs, heap.Whole(), at, whole);
    }

    /** Reads the registers back from the object at `at`. */
    method Restore(at: nat)
      requires R != heap.mem && at + 1 + R.Length < heap.mem.Length
      modifies this, R
      ensures Roots() == heap.mem[at+1..at+1+R.Length+1]
    {
      var p := 0;
      while p < R.Length
        invariant 0 <= p <= R.Length
        invariant R[..p] == heap.mem[at+1..at+1+p]
      {
        R[p] := heap.mem[at + 1 + p];
        p := p + 1;
      }
      self := heap.mem[at + 1 + p];
    }
  }
}
