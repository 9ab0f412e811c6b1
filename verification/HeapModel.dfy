/** Words, objects and areas of the heap, as values.

    A machine word is modelled by what its low bits say it is: an immediate, a plain
    pointer, a pointer carrying the mark bit (only seen while a collection is running),
    or an object header.  The payload of a raw object may hold any word at all: nobody
    is allowed to look at its bits. */
module HeapModel {

  datatype Word =
    | Imm(val: int)
    | Ref(adr: int)
    | Thread(adr: int)
    | Header(typ: int, raw: bool, size: int)

  /** [lo, hi) is a sequence of objects laid end to end. */
  ghost predicate Tiled(h: seq<Word>, lo: int, hi: int)
    decreases hi - lo
  {
    && 0 <= lo <= hi <= |h|
    && (lo < hi ==>
          && h[lo].Header?
          && 1 <= h[lo].size <= hi - lo
          && Tiled(h, lo + h[lo].size, hi))
  }

  /** The addresses of the objects that tile [lo, hi). */
  ghost function Starts(h: seq<Word>, lo: int, hi: int): (s: set<int>)
    requires Tiled(h, lo, hi)
    ensures forall o :: o in s ==> lo <= o < hi && h[o].Header? && 1 <= h[o].size && o + h[o].size <= hi
    decreases hi - lo
  {
    if lo == hi then {} else {lo} + Starts(h, lo + h[lo].size, hi)
  }

  lemma {:induction false} StartsApart(h: seq<Word>, lo: int, hi: int, o: int, q: int)
    requires Tiled(h, lo, hi)
    requires o in Starts(h, lo, hi) && q in Starts(h, lo, hi) && o < q
    ensures o + h[o].size <= q
    decreases hi - lo
  {
    if o != lo {
      StartsApart(h, lo + h[lo].size, hi, o, q);
    }
  }

  lemma {:induction false} StartsNext(h: seq<Word>, lo: int, hi: int, o: int)
    requires Tiled(h, lo, hi)
    requires o in Starts(h, lo, hi)
    ensures o + h[o].size == hi || o + h[o].size in Starts(h, lo, hi)
    decreases hi - lo
  {
    if o != lo {
      StartsNext(h, lo + h[lo].size, hi, o);
    } else if lo + h[lo].size < hi {
      assert lo + h[lo].size in Starts(h, lo + h[lo].size, hi);
    }
  }

  /** A stretch of the heap, plus the root slot that a collection puts just above it.
      `hi` itself stands for the pseudo-object whose only slot is the root. */
  datatype Area = Area(h: seq<Word>, lo: int, hi: int) {

    ghost predicate Tidy() {
      Tiled(h, lo, hi)
    }

    ghost predicate Shaped() {
      Tiled(h, lo, hi) && hi + 1 < |h|
    }

    ghost function Objects(): set<int>
      requires Tidy()
    {
      Starts(h, lo, hi)
    }

    ghost predicate Node(o: int)
      requires Shaped()
    {
      o == hi || (o in Objects() && !h[o].raw)
    }

    ghost function Last(o: int): int
      requires Shaped() && (o == hi || o in Objects())
    {
      if o == hi then hi + 1 else o + h[o].size - 1
    }

    /** p is one of the pointer-carrying words of o. */
    ghost predicate Slot(o: int, p: int)
      requires Shaped()
    {
      Node(o) && o < p <= Last(o)
    }

    ghost predicate Inside(w: Word) {
      w.Ref? && w.adr >= lo
    }

    /** No mark bits are left over and every pointer into the area names an object. */
    ghost predicate Valid() {
      && Shaped()
      && (forall o, p :: Slot(o, p) ==> !h[p].Thread? && (Inside(h[p]) ==> h[p].adr in Objects()))
    }

    /** Every pointer inside the area goes to a strictly lower object. */
    ghost predicate Downward()
      requires Shaped()
    {
      forall o, p :: Slot(o, p) && Inside(h[p]) ==> h[p].adr < o
    }

    ghost predicate Link(o: int, t: int)
      requires Shaped()
    {
      exists p :: Slot(o, p) && h[p] == Ref(t) && t >= lo
    }

    ghost predicate Path(path: seq<int>)
      requires Shaped()
    {
      && |path| > 0 && path[0] == hi
      && forall i :: 0 < i < |path| ==> Link(path[i-1], path[i])
    }

    ghost predicate Reachable(t: int)
      requires Shaped()
    {
      exists path :: Path(path) && path[|path|-1] == t
    }
  }

  lemma SlotOwner(y: Area, o: int, q: int, p: int)
    requires y.Shaped() && y.Slot(o, p) && y.Slot(q, p)
    ensures o == q
  {
    if o != y.hi && q != y.hi && o != q {
      StartsApart(y.h, y.lo, y.hi, if o < q then o else q, if o < q then q else o);
    }
  }

  lemma SlotIsNotAnObject(y: Area, o: int, p: int)
    requires y.Shaped() && y.Slot(o, p)
    ensures y.lo < p < |y.h| && p !in y.Objects() && p != y.hi
  {
    if o != y.hi && p in y.Objects() {
      StartsApart(y.h, y.lo, y.hi, o, p);
    }
  }

  lemma ReachableStep(y: Area, o: int, t: int)
    requires y.Shaped()
    requires o == y.hi || y.Reachable(o)
    requires y.Link(o, t)
    ensures y.Reachable(t)
  {
    if o == y.hi {
      var path := [y.hi, t];
      assert y.Path(path) && path[|path|-1] == t;
    } else {
      var path :| y.Path(path) && path[|path|-1] == o;
      var longer := path + [t];
      forall i | 0 < i < |longer| ensures y.Link(longer[i-1], longer[i]) {
        if i < |path| {
          assert longer[i-1] == path[i-1] && longer[i] == path[i];
        }
      }
      assert y.Path(longer) && longer[|longer|-1] == t;
    }
  }

  /** A set that holds the targets of the root and is closed under links holds everything reachable. */
  lemma {:induction false} ClosedHoldsPath(y: Area, live: set<int>, path: seq<int>)
    requires y.Shaped()
    requires y.Path(path)
    requires forall o, t :: (o == y.hi || o in live) && y.Link(o, t) ==> t in live
    ensures path[|path|-1] == y.hi || path[|path|-1] in live
    decreases |path|
  {
    if |path| > 1 {
      var front := path[..|path|-1];
      assert y.Path(front);
      ClosedHoldsPath(y, live, front);
      assert y.Link(path[|path|-2], path[|path|-1]);
    }
  }
}
