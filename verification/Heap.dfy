/** The heap of the virtual machine and its garbage collector. */
module HeapObject {
  import opened HeapModel
  import opened Marking
  import opened Sweeping
  import opened HeapGraph
  import opened Collection
  import opened Moving
  import opened Wrappers

  const NR := 256
  const CR := 16
  const GCPAD := NR + 3
  const MEMPAD := 1024
  const TTUPLE := 2

  // Immediates of type TCONST (13): #false, #true and the empty finite function.
  const IFALSE := Imm(54)
  const ITRUE := Imm(310)
  const IEMPTY := Imm(822)

  class Heap {
    // Array indices are word addresses; only [begin, end) and the pad above it belong to the heap.
    var mem: array<Word>
    var begin: nat
    var end: nat
    var genstart: nat
    var fp: nat
    const sandboxp: bool

    constructor (block: array<Word>, start: nat, limit: nat, sandbox: bool)
      requires start <= limit && limit + GCPAD <= block.Length
      ensures mem == block && begin == start && end == limit && fp == start && genstart == start
      ensures sandboxp == sandbox
      ensures Valid()
    {
      mem, begin, end, fp, genstart := block, start, limit, start, start;
      sandboxp := sandbox;
    }

    /** Objects end to end from begin to fp, every pointer in them going down; the young area
        starts at an object; and the pad the collector needs is there. */
    ghost predicate Valid()
      reads this, mem
    {
      && Sound(Whole())
      && (genstart in Whole().Objects() || genstart == fp)
      && begin <= end && end + GCPAD <= mem.Length
    }

    ghost function Whole(): Area
      reads this, mem
    {
      Area(mem[..], begin, fp)
    }

    /** Follows a chain of marked pointers back to the slot that was threaded first. */
    method Chase(start: int, ghost y: Area, ghost chain: Chains, ghost t: int) returns (p: int)
      requires y.Shaped() && Chained(y, mem[..], chain)
      requires t in chain && start in chain[t]
      ensures p == chain[t][0]
    {
      assert ChainOf(y, mem[..], t, chain[t]);
      p := start;
      ghost var j :| 0 <= j < |chain[t]| && chain[t][j] == p;
      assert LinkAt(y, mem[..], t, chain[t], j);
      while mem[p].Thread?
        invariant 0 <= j < |chain[t]| && chain[t][j] == p
        invariant LinkAt(y, mem[..], t, chain[t], j)
        decreases j
      {
        p := mem[p].adr;
        j := j - 1;
        assert LinkAt(y, mem[..], t, chain[t], j);
      }
    }

    /** Depth-first from the root slot, without a stack: every slot that refers to a young object
        is moved onto a chain hanging off that object's header. */
    method Mark(root: nat, stop: nat, ghost y: Area) returns (ghost chain: Chains)
      requires y == Area(mem[..], genstart, stop) && y.Valid() && root == stop + 1
      modifies mem
      ensures Chained(y, mem[..], chain)
      ensures Found(y, chain)
      ensures forall t :: t in chain <==> t != stop && y.Reachable(t)
    {
      hide Traversal;
      var pos := root;
      chain := map[];
      ghost var m, owners, via: seq<int>, at: int := mem[..], [stop], [], root;
      ghost var todo := set p | 0 <= p < mem.Length && SomeSlot(y, p);
      MarkStart(y, todo);
      while pos != stop
        invariant mem[..] == m && pos == at
        invariant Traversal(y, m, chain, owners, via, todo, at)
        decreases todo, |via|
      {
        ghost var m0, chain0 := m, chain;
        m, chain, owners, via, todo, at := Step(y, m, chain, owners, via, todo, at);
        var val := mem[pos];
        assert val == m0[pos];
        if (val.Ref? || val.Thread?) && val.adr >= genstart {
          if val.Thread? {
            pos := Chase(val.adr, y, chain0, pos);
            pos := pos - 1;
          } else {
            var ptr := val.adr;
            var hdr := mem[ptr];
            assert hdr == m0[ptr];
            mem[pos] := mem[ptr];
            mem[ptr] := Thread(pos);
            assert mem[..] == Thread1(m0, pos, ptr);
            if hdr.Thread? || hdr.raw {
              pos := pos - 1;
            } else {
              pos := ptr + hdr.size - 1;
            }
          }
        } else {
          pos := pos - 1;
        }
      }
      MarkDone(y, m, chain, owners, via, todo);
      FoundExactly(y, chain);
    }

    /** Redirects to `dst` every slot on the chain that hangs off the object at `src`. */
    method Unthread(src: int, dst: int, ghost y: Area, ghost chain: Chains) returns (header: Word)
      requires y.Valid() && y.Downward() && Swept(y, chain, mem[..], src, dst)
      requires src in chain && 0 <= dst <= src
      modifies mem
      ensures Unthreading(y, old(mem[..]), mem[..], src, chain[src], 0, dst)
      ensures ChainOf(y, old(mem[..]), src, chain[src])
      ensures header == mem[dst] == y.h[src]
    {
      ghost var m0, c := mem[..], chain[src];
      ghost var m, j := m0[dst := m0[src]], |c|;
      UnthreadStart(y, chain, m0, src, dst);
      mem[dst] := mem[src];
      var val := mem[dst];
      while val.Thread?
        invariant mem[..] == m && 0 <= dst < mem.Length && val == mem[dst]
        invariant Unthreading(y, m0, m, src, c, j, dst)
        decreases j
      {
        UnthreadNext(y, m0, m, src, c, j, dst);
        m, j := m[dst := m[c[j-1]]][c[j-1] := Ref(dst)], j - 1;
        var ptr := val.adr;
        mem[dst] := mem[ptr];
        mem[ptr] := Ref(dst);
        val := mem[dst];
      }
      header := val;
    }

    /** Copies the `count` words above src to the words above dst, lowest first. */
    method SlideDown(src: int, dst: int, count: int)
      requires 0 <= dst < src && 0 <= count && src + count < mem.Length
      modifies mem
      ensures forall q :: dst < q <= dst + count ==> mem[q] == old(mem[q - dst + src])
      ensures forall q :: 0 <= q < mem.Length && !(dst < q <= dst + count) ==> mem[q] == old(mem[q])
    {
      var h, from, to := count, src, dst;
      while h != 0
        invariant 0 <= h <= count && from == src + count - h && to == dst + count - h
        invariant forall q :: dst < q <= to ==> mem[q] == old(mem[q - dst + src])
        invariant forall q :: 0 <= q < mem.Length && !(dst < q <= to) ==> mem[q] == old(mem[q])
      {
        to, from := to + 1, from + 1;
        mem[to] := mem[from];
        h := h - 1;
      }
    }

    /** Undoes the chain of the object at `from` and moves the object down to `to`. */
    method MoveObject(from: int, to: int, ghost y: Area, ghost chain: Chains) returns (h: int, ghost m1: seq<Word>)
      requires y.Valid() && y.Downward() && Swept(y, chain, mem[..], from, to)
      requires from in chain && from in y.Objects() && 0 <= to <= from
      modifies mem
      ensures h == y.h[from].size
      ensures Slid(y, old(mem[..]), m1, mem[..], chain, from, to)
    {
      var header := Unthread(from, to, y, chain);
      m1 := mem[..];
      h := header.size;
      if from != to {
        SlideDown(from, to, h - 1);
      }
    }

    /** Deals with the object at `from`: what was found is moved down to `to`, the rest skipped. */
    method SweepNext(from: int, to: int, ghost y: Area, ghost chain: Chains) returns (from': int, to': int)
      requires y.Valid() && y.Downward() && Found(y, chain)
      requires y.lo <= from < y.hi && Swept(y, chain, mem[..], from, to)
      modifies mem
      ensures from < from' && Swept(y, chain, mem[..], from', to')
    {
      ghost var m0, m1 := mem[..], mem[..];
      HereInSweep(y, chain, m0, from, to);
      var h;
      if mem[from].Thread? {
        h, m1 := MoveObject(from, to, y, chain);
        from', to' := from + h, to + h;
        SweepLive(y, chain, m0, m1, mem[..], from, to, from');
      } else {
        h := mem[from].size;
        from', to' := from + h, to;
        SweepDead(y, chain, m0, from, from', to);
      }
    }

    /** A single pass from the bottom of the young area to `stop`: every object that was found has
        its chain undone and is moved down against the previous survivor. */
    method Sweep(stop: nat, ghost y: Area, ghost chain: Chains) returns (top: int)
      requires y.Valid() && y.Downward() && genstart == y.lo && stop == y.hi
      requires Chained(y, mem[..], chain) && Found(y, chain)
      modifies mem
      ensures Compacted(y, chain.Keys, mem[..], top)
    {
      var from: int, to: int := genstart, genstart;
      SweepStart(y, chain, mem[..]);
      while from < stop
        invariant y.lo <= from && Swept(y, chain, mem[..], from, to)
        decreases stop - from
      {
        from, to := SweepNext(from, to, y, chain);
      }
      SweepDone(y, chain, mem[..], to);
      top := to;
    }

    /** Marks from the root slot above fp, sweeps the young area, and reads the root back. */
    method MarkAndSweep(ghost y: Area) returns (top: int, root': Word, ghost chain: Chains)
      requires y == Area(mem[..], genstart, fp) && y.Valid() && y.Downward()
      modifies mem
      ensures Found(y, chain) && Compacted(y, chain.Keys, mem[..], top)
      ensures fp + 1 < mem.Length && root' == mem[..][fp + 1]
    {
      var root := fp + 1;
      chain := Mark(root, fp, y);
      top := Sweep(fp, y, chain);
      root' := mem[root];
    }

    /** Collects the young area, keeping what can be reached from the object at regs. */
    method Collect(regs: nat) returns (regs': nat, ghost phi: map<int, int>)
      requires Valid() && Newest(Whole(), regs) && regs >= genstart && fp + 1 < mem.Length
      modifies mem, `fp
      ensures Valid() && Newest(Whole(), regs') && regs' >= genstart && fp <= old(fp)
      ensures SameGraph(old(Whole()), Ref(regs), Whole(), Ref(regs'), phi)
      ensures OnlyReachable(old(Whole()), genstart, Ref(regs), Whole(), phi)
    {
      ghost var a0 := Whole();
      mem[fp] := Header(TTUPLE, false, 2);
      mem[fp + 1] := Ref(regs);
      ghost var a, y := Whole(), Area(mem[..], genstart, fp);
      BeforeCollection(a0, a, y, regs);
      var top, r;
      ghost var chain;
      top, r, chain := MarkAndSweep(y);
      ghost var a', r' := Area(mem[..], begin, top), 0;
      r', phi := CollectionOutcome(a0, a, y, fp + 1, regs, chain, mem[..], top, a');
      assert r == Ref(r');
      regs' := r.adr;
      fp := top;
    }

    /** realloc: a block for `cells` words and the pad at address `place`, which holds what the old
        block held, as far as both reach. */
    method Realloc(cells: nat, place: nat)
      requires begin <= end && end + GCPAD <= mem.Length
      modifies this
      ensures fresh(mem) && mem.Length == place + cells + GCPAD
      ensures begin == place && end == place + cells && fp == old(fp) && genstart == old(genstart)
      ensures var used := if cells < old(end - begin) then cells else old(end - begin);
              CopiedBlock(old(mem[..]), old(begin), old(begin) + used + GCPAD, mem[..], place - old(begin))
    {
      var block := new Word[place + cells + GCPAD];
      var used := if cells < end - begin then cells else end - begin;
      forall q | place <= q < place + used + GCPAD {
        block[q] := mem[q - place + begin];
      }
      CopiedFrom(mem[..], begin, begin + used + GCPAD, block[..], place - begin);
      mem, begin, end := block, place, place + cells;
    }

    /** Shifts the pointers among the `count` words above pos. */
    method FixWords(pos: nat, count: int, delta: int)
      requires 0 <= count && pos + count < mem.Length
      modifies mem
      ensures forall q :: 0 <= q < mem.Length && !(pos < q <= pos + count) ==> mem[q] == old(mem[q])
      ensures forall q :: pos < q <= pos + count ==> mem[q] == Shift(old(mem[q]), delta)
    {
      var sz, p := count, pos + 1;
      while sz != 0
        invariant 0 <= sz <= count && p == pos + 1 + count - sz
        invariant forall q :: 0 <= q < mem.Length && !(pos < q < p) ==> mem[q] == old(mem[q])
        invariant forall q :: pos < q < p ==> mem[q] == Shift(old(mem[q]), delta)
      {
        sz := sz - 1;
        var val := mem[p];
        if val.Ref? {
          mem[p] := Ref(val.adr + delta);
        }
        p := p + 1;
      }
    }

    /** Walks the objects of a block copied from elsewhere and shifts their pointers. */
    method FixPointers(delta: int, ghost a: Area)
      requires a.Tidy() && begin == a.lo + delta && fp == a.hi + delta
      requires CopiedBlock(a.h, a.lo, a.hi, mem[..], delta)
      modifies mem
      ensures AllShifted(a, mem[..], delta)
    {
      var pos := begin;
      FixedStart(a, mem[..], delta, pos);
      while pos < fp
        invariant a.lo <= pos - delta <= a.hi
        invariant Fixed(a.h, a.lo, a.hi, mem[..], delta, pos)
        decreases fp - pos
      {
        ghost var m := mem[..];
        FixedHere(a, m, delta, pos);
        var hdr := mem[pos];
        var sz := hdr.size;
        if !hdr.raw {
          FixWords(pos, sz - 1, delta);
        }
        FixedNext(a.h, a.lo, a.hi, m, mem[..], delta, pos, pos + sz);
        pos := pos + sz;
      }
      FixedAll(a, mem[..], delta, pos);
    }

    /** Fixes a block that has just been copied, unless it is where it was. */
    method Settle(delta: int, ghost a: Area, ghost regs: int) returns (ghost phi: map<int, int>)
      requires Sound(a) && Newest(a, regs)
      requires begin == a.lo + delta && fp == a.hi + delta
      requires CopiedBlock(a.h, a.lo, a.hi, mem[..], delta)
      modifies mem
      ensures Sound(Whole()) && Transplanted(a, regs, Whole(), regs + delta, phi)
    {
      if delta == 0 {
        CopiedPart(a, a.hi, mem[..], delta);
        phi := NotMoved(a, regs, Whole());
      } else {
        FixPointers(delta, a);
        ghost var a' := Whole();
        phi := FixedDone(a, regs, a', delta, regs + delta);
      }
    }

    /** Gives the heap room for `cells` words, at `place` if the block has to move. */
    method ResizeHeap(cells: nat, place: nat, ghost regs: int) returns (delta: int, ghost phi: map<int, int>)
      requires Sound(Whole()) && Newest(Whole(), regs)
      requires begin <= end && end + GCPAD <= mem.Length
      requires fp - begin <= cells && fp <= end + GCPAD
      modifies this, mem
      ensures mem == old(mem) || fresh(mem)
      ensures begin <= end && end + GCPAD <= mem.Length
      ensures begin == old(begin) + delta
      ensures if sandboxp then delta == 0 && end == old(end) else end == begin + cells
      ensures Sound(Whole()) && Transplanted(old(Whole()), regs, Whole(), regs + delta, phi)
    {
      ghost var a := Whole();
      if sandboxp {
        phi := NotMoved(a, regs, a);
        return 0, phi;
      }
      delta := Move(cells, place);
      phi := Settle(delta, a, regs);
    }

    /** Puts the words of the heap in another block; the pointers in it are still the old ones. */
    method Move(cells: nat, place: nat) returns (delta: int)
      requires Whole().Tidy()
      requires begin <= end && end + GCPAD <= mem.Length
      requires fp - begin <= cells && fp <= end + GCPAD
      modifies this
      ensures fresh(mem) && begin <= end && end + GCPAD <= mem.Length
      ensures begin == old(begin) + delta && fp == old(fp) + delta && end == begin + cells
      ensures CopiedBlock(old(mem[..]), old(begin), old(fp), mem[..], delta)
    {
      ghost var a, reach := Whole(), begin + (if cells < end - begin then cells else end - begin) + GCPAD;
      var was := begin;
      Realloc(cells, place);
      delta := begin - was;
      CopiedPart(a, reach, mem[..], delta);
      fp := fp + delta;
    }

    /** The heap has just been fully collected: lets it grow or shrink to suit what is in use. */
    method Rescale(query: nat, regs: nat, place: nat) returns (regs': nat, ghost phi: map<int, int>)
      requires Valid() && Newest(Whole(), regs) && mem[regs].size <= MEMPAD <= query
      requires fp <= end + GCPAD
      modifies this, mem
      ensures mem == old(mem) || fresh(mem)
      ensures begin <= end && end + GCPAD <= mem.Length
      ensures Sound(Whole()) && Transplanted(old(Whole()), regs, Whole(), regs', phi)
      ensures !sandboxp ==> end - regs' >= query
      ensures Refitted(old(begin), old(end), query, begin, end, regs', sandboxp)
    {
      hide SameGraph, Onto, SoundObject, HeapModel.Tiled, HeapModel.Starts;
      var hsize := end - begin;
      var nfree := end - regs;
      var nused := hsize - nfree + query;
      var cells := NewSize(hsize, nused);
      if cells.Some? {
        var delta;
        delta, phi := ResizeHeap(cells.value, place, regs);
        regs' := regs + delta;
      } else {
        phi := NotMoved(Whole(), regs, Whole());
        regs' := regs;
      }
    }

    /** Compacts the heap around the newest object, at regs, and makes sure that at least
        query + MEMPAD words are free above it.  A query of 0 asks for a full collection; when a
        collection of the young area does not leave a fifth of the heap free beside what is asked
        for, a full one follows.  The size changes after a full collection only. */
    method Gc(query: nat, regs: nat, place: nat) returns (regs': nat, ghost phi: map<int, int>)
      requires Valid() && Newest(Whole(), regs) && mem[regs].size <= MEMPAD
      requires query == 0 || genstart <= regs
      requires fp + 1 < end + GCPAD
      modifies this, mem
      ensures mem == old(mem) || fresh(mem)
      ensures Valid() && Newest(Whole(), regs') && genstart == regs'
      ensures SameGraph(old(Whole()), Ref(regs), Whole(), Ref(regs'), phi)
      ensures Retained(old(Whole()), if query == 0 then old(begin) else old(genstart), Ref(regs), Whole(), phi)
      ensures !sandboxp ==> end - regs' >= query + MEMPAD
      ensures query == 0 || old(genstart) == old(begin) ==>
                Refitted(old(begin), old(end), query + MEMPAD, begin, end, regs', sandboxp)
      ensures query != 0 && old(genstart) != old(begin) ==>
                || (begin == old(begin) && end == old(end) && Ample(begin, end, regs', query + MEMPAD))
                || (&& Retained(old(Whole()), old(begin), Ref(regs), Whole(), phi)
                    && Refitted(old(begin), old(end), query + MEMPAD + MEMPAD, begin, end, regs', sandboxp))
      decreases query != 0 && genstart != begin, 1
    {
      assert begin in Whole().Objects() || begin == fp;
      hide SameGraph, Retained, Onto, Refitted, Ample, SoundObject, HeapModel.Tiled, HeapModel.Starts;
      if query == 0 {
        genstart := begin;
      }
      ghost var a, g := Whole(), genstart;
      regs', phi := Collect(regs);
      ghost var a1, r1 := Whole(), regs';
      NewestCarried(a, regs, a1, r1, phi);
      ghost var psi;
      regs', psi := Extend(query + MEMPAD, regs', place);
      BothCollected(a, g, Ref(regs), a1, Ref(r1), phi, Whole(), Ref(regs'), psi);
      phi := Compose(phi, psi);
    }

    /** After a collection: resizes the heap if all of it was collected, collects all of it if too
        little is free, and lets the next young area start at regs'.  With enough free after a
        collection of the young area nothing is moved. */
    method Extend(want: nat, regs: nat, place: nat) returns (regs': nat, ghost psi: map<int, int>)
      requires Valid() && Newest(Whole(), regs) && mem[regs].size <= MEMPAD <= want
      requires genstart <= regs && fp + 1 < end + GCPAD
      modifies this, mem
      ensures mem == old(mem) || fresh(mem)
      ensures Valid() && Newest(Whole(), regs') && genstart == regs'
      ensures SameGraph(old(Whole()), Ref(regs), Whole(), Ref(regs'), psi) && Onto(Whole(), psi)
      ensures !sandboxp ==> end - regs' >= want
      ensures old(genstart) == old(begin) ==> Refitted(old(begin), old(end), want, begin, end, regs', sandboxp)
      ensures old(genstart) != old(begin) && Ample(old(begin), old(end), regs, want) ==>
                regs' == regs && unchanged(`mem, `begin, `end, `fp) && mem[..] == old(mem[..])
      ensures old(genstart) != old(begin) && !Ample(old(begin), old(end), regs, want) ==>
                && Retained(old(Whole()), old(begin), Ref(regs), Whole(), psi)
                && Refitted(old(begin), old(end), want + MEMPAD, begin, end, regs', sandboxp)
      decreases genstart != begin, 0
    {
      assert begin in Whole().Objects() || begin == fp;
      hide SameGraph, Refitted, SoundObject, HeapModel.Tiled, HeapModel.Starts;
      if genstart == begin {
        regs', psi := Rescale(want, regs, place);
        genstart := regs';
      } else if (end - regs) - want < (end - begin) / 5 {
        genstart := begin;
        regs', psi := Gc(want, regs, place);
      } else {
        psi := NotMoved(Whole(), regs, Whole());
        regs', genstart := regs, regs;
      }
    }

    /** Allocates an object at fp: cons cells, tuples, closures and tree nodes are all made so. */
    method New(typ: nat, fields: seq<Word>) returns (o: nat)
      requires Valid() && fp + |fields| + 1 < end + GCPAD
      requires forall w :: w in fields ==> Held(Whole(), w)
      modifies mem, `fp
      ensures Valid() && Newest(Whole(), o) && o == old(fp)
      ensures Whole().Objects() == old(Whole().Objects()) + {o}
      ensures PutOnTop(old(mem[..]), o, mem[..], fp, typ, fields)
    {
      ghost var a := Whole();
      o := fp;
      fp := fp + |fields| + 1;
      Fill(o, typ, fields);
      PutGrown(a, Whole(), typ, fields);
    }

    /** Writes a header and the words after it. */
    method Fill(o: nat, typ: nat, fields: seq<Word>)
      requires o + |fields| < mem.Length
      modifies mem
      ensures PutOnTop(old(mem[..]), o, mem[..], o + |fields| + 1, typ, fields)
    {
      ghost var was := mem[..];
      mem[o] := Header(typ, false, |fields| + 1);
      var i := 0;
      while i < |fields|
        invariant 0 <= i <= |fields|
        invariant mem[..o] == was[..o] && mem[o] == Header(typ, false, |fields| + 1)
        invariant mem[o+1..o+1+i] == fields[..i]
      {
        mem[o + 1 + i] := fields[i];
        i := i + 1;
      }
    }

    /** set-ref: a copy of the object with one field changed. */
    method SetRef(p: Word, pos: nat, val: Word) returns (r: Word)
      requires Valid() && Held(Whole(), p) && Held(Whole(), val)
      requires p.Ref? ==> !mem[p.adr].raw && fp + mem[p.adr].size + 1 < end + GCPAD
      modifies mem, `fp
      ensures Valid()
      ensures !p.Ref? || pos == 0 || pos > old(mem[p.adr].size) ==>
                r == IFALSE && mem[..] == old(mem[..]) && fp == old(fp)
      ensures p.Ref? && 0 < pos <= old(mem[p.adr].size) ==>
                && r == Ref(old(fp)) && Newest(Whole(), old(fp))
                && CopyOf(old(mem[..]), p.adr, old(mem[p.adr].size), mem[..], old(fp), pos, val)
    {
      assert Whole().Tidy();
      hide Sound;
      if !p.Ref? || mem[p.adr].size < pos || pos == 0 {
        return IFALSE;
      }
      var o := CopyObject(p.adr, pos, val);
      r := Ref(o);
    }

    /** A new object: a copy of the one at src with val at position pos. */
    method CopyObject(src: nat, pos: nat, val: Word) returns (o: nat)
      requires Valid() && src in Whole().Objects() && !mem[src].raw && Held(Whole(), val)
      requires 0 < pos <= mem[src].size && fp + mem[src].size + 1 < end + GCPAD
      modifies mem, `fp
      ensures Valid() && o == old(fp) && Newest(Whole(), o)
      ensures CopyOf(old(mem[..]), src, old(mem[src].size), mem[..], o, pos, val)
    {
      ghost var a := Whole();
      var hdr := mem[src];
      o := fp;
      fp := fp + hdr.size;
      CopyWith(src, hdr.size, o, pos, val);
      ghost var a' := Whole();
      ChangedCopy(a, a', src, o, pos, val);
    }

    /** Copies size words from src to dst, above it, and puts val at position pos of the copy; with
        pos equal to size it goes to the free word after the copy. */
    method CopyWith(src: nat, size: nat, dst: nat, pos: nat, val: Word)
      requires src + size <= dst && dst + size < mem.Length && 0 < pos <= size
      modifies mem
      ensures CopyOf(old(mem[..]), src, size, mem[..], dst, pos, val)
    {
      ghost var was := mem[..];
      CopyWords(src, size, dst);
      ghost var copied := mem[..];
      assert copied[dst..dst+size] == was[src..src+size] && copied[..dst] == was[..dst];
      mem[dst + pos] := val;
      assert mem[..] == copied[dst + pos := val];
      FieldChanged(copied, dst, size, pos, val);
    }

    /** Copies size words from src to dst, above it. */
    method CopyWords(src: nat, size: nat, dst: nat)
      requires src + size <= dst && dst + size <= mem.Length
      modifies mem
      ensures mem[dst..dst+size] == old(mem[src..src+size])
      ensures forall q :: 0 <= q < mem.Length && !(dst <= q < dst + size) ==> mem[q] == old(mem[q])
    {
      var i := 0;
      while i < size
        invariant 0 <= i <= size
        invariant forall q :: dst <= q < dst + i ==> mem[q] == old(mem[q - dst + src])
        invariant forall q :: 0 <= q < mem.Length && !(dst <= q < dst + i) ==> mem[q] == old(mem[q])
      {
        mem[dst + i] := mem[src + i];
        i := i + 1;
      }
    }

    /** set-ref!: the object itself changed, which is allowed for immediates only.  A position equal
        to the object's size passes the bounds check and lands on the word after the object. */
    method SetRefInPlace(p: Word, pos: nat, val: Word) returns (r: Option<Word>)
      requires Valid() && fp < end + GCPAD && Held(Whole(), p) && (val.Imm? || val.Ref?)
      requires p.Ref? ==> !mem[p.adr].raw
      modifies mem
      ensures val.Ref? ==> r == None && mem[..] == old(mem[..])
      ensures val.Imm? && !(p.Ref? && 1 <= pos <= old(mem[p.adr].size)) ==> r == Some(IFALSE) && mem[..] == old(mem[..])
      ensures val.Imm? && p.Ref? && 1 <= pos <= old(mem[p.adr].size) ==>
                && r == Some(p) && p.adr + pos < mem.Length
                && mem[..] == old(mem[..])[p.adr + pos := val]
                && (Valid() <==> pos < old(mem[p.adr].size) || p.adr + pos == fp)
    {
      if !val.Imm? {
        return None;
      }
      if p.Ref? {
        var o := p.adr;
        if 1 <= pos <= mem[o].size {
          ghost var a, size := Whole(), mem[o].size;
          assert SoundObject(a.h, a.Objects(), o);
          mem[o + pos] := val;
          assert mem[..] == a.h[o + pos := val];
          if pos < size {
            Overwritten(a, Whole(), o, o + pos, val);
          } else {
            StartsNext(a.h, a.lo, a.hi, o);
            if o + pos == fp {
              assert SameWords(a, Whole());
              SoundFrame(a, Whole());
            } else {
              BrokenTiled(a.h, a.lo, a.hi, o + pos, val);
            }
          }
          return Some(p);
        }
      }
      r := Some(IFALSE);
    }
  }

  /** An object at o, above which there is nothing but its fields; what is below o is as in h. */
  ghost predicate PutOnTop(h: seq<Word>, o: int, h': seq<Word>, hi: int, typ: nat, fields: seq<Word>)
  {
    && 0 <= o <= |h| && hi == o + |fields| + 1 <= |h'|
    && h'[..o] == h[..o]
    && h'[o] == Header(typ, false, |fields| + 1)
    && h'[o+1..hi] == fields
  }

  lemma PutGrown(a: Area, a': Area, typ: nat, fields: seq<Word>)
    requires Sound(a) && a'.lo == a.lo && PutOnTop(a.h, a.hi, a'.h, a'.hi, typ, fields)
    requires forall w :: w in fields ==> Held(a, w)
    ensures Sound(a') && a'.Objects() == a.Objects() + {a.hi} && Newest(a', a.hi)
  {
    var o := a.hi;
    forall q | a.lo <= q < o ensures a'.h[q] == a.h[q] {
      assert a'.h[q] == a'.h[..o][q];
    }
    forall p | o < p < a'.hi ensures Held(a, a'.h[p]) {
      assert a'.h[p] == a'.h[o+1..a'.hi][p-o-1] && a'.h[p] in fields;
    }
    Grown(a, a', o);
  }

  /** What an object holds may be held. */
  lemma HeldField(a: Area, o: int, p: int)
    requires Sound(a) && o in a.Objects() && !a.h[o].raw && o < p < o + a.h[o].size
    ensures 0 <= p < |a.h| && Held(a, a.h[p])
  {
    assert SoundObject(a.h, a.Objects(), o);
  }

  /** The copy made by set-ref is as good an object as the one copied. */
  lemma ChangedCopy(a: Area, a': Area, src: int, o: int, pos: nat, val: Word)
    requires Sound(a) && src in a.Objects() && !a.h[src].raw && Held(a, val) && o == a.hi && pos > 0
    requires a'.lo == a.lo && a'.hi == o + a.h[src].size <= |a'.h|
    requires CopyOf(a.h, src, a.h[src].size, a'.h, o, pos, val)
    ensures Sound(a') && a'.Objects() == a.Objects() + {o} && Newest(a', o)
  {
    forall q | a.lo <= q < a.hi ensures a'.h[q] == a.h[q] {
      assert a'.h[q] == a'.h[..o][q];
    }
    forall q | o <= q < a'.hi ensures a'.h[q] == WithField(a.h[src..src+a.h[src].size], pos, val)[q - o] {
      assert a'.h[q] == a'.h[o..a'.hi][q - o];
    }
    forall q | o < q < a'.hi ensures Held(a, a'.h[q]) {
      if q - o != pos { HeldField(a, src, src + (q - o)); }
    }
    Grown(a, a', o);
  }

  /** The words of h' from dst are those from src in h, with val at position pos; those below dst
      are the same. */
  ghost predicate CopyOf(h: seq<Word>, src: int, size: int, h': seq<Word>, dst: int, pos: nat, val: Word)
  {
    && 0 <= src <= src + size <= |h| && 0 <= dst <= dst + size <= |h'| && dst <= |h|
    && h'[..dst] == h[..dst]
    && h'[dst..dst+size] == WithField(h[src..src+size], pos, val)
  }

  lemma FieldChanged(h: seq<Word>, o: int, size: int, pos: nat, val: Word)
    requires 0 <= o && 0 < pos <= size && o + size < |h|
    ensures h[o + pos := val][o..o+size] == WithField(h[o..o+size], pos, val)
    ensures h[o + pos := val][..o] == h[..o]
  {
  }

  /** s with val at index pos, when there is such an index. */
  function WithField(s: seq<Word>, pos: nat, val: Word): seq<Word> {
    if pos < |s| then s[pos := val] else s
  }

  /** With what is wanted put above regs, at least a fifth of the heap is still free. */
  predicate Ample(begin: nat, end: nat, regs: int, want: nat)
    requires begin <= end
  {
    (end - regs) - want >= (end - begin) / 5
  }

  /** What the size of a heap of hsize words becomes when nused words are wanted in it.  With more
      than half of it wanted the heap grows, until three quarters of it are; with less than a third
      wanted it gives up a ninth; and otherwise it stays as it is. */
  predicate Sized(hsize: nat, nused: nat, size: int) {
    if nused > hsize / 2 then
      var n := if nused < hsize then hsize else nused;
      4 * n - 2 <= 3 * size <= 4 * n
    else if nused < hsize / 3 then
      8 * hsize <= 9 * size <= 8 * hsize + 8
    else
      size == hsize
  }

  /** After a full collection: the new bounds, with the registers at regs and `want` words to come
      above them.  A sandbox keeps its size. */
  predicate Refitted(begin: nat, end: nat, want: nat, begin': nat, end': nat, regs: int, sandboxp: bool)
    requires begin <= end
  {
    if sandboxp then
      end' - begin' == end - begin
    else
      regs >= begin' && Sized(end - begin, regs - begin' + want, end' - begin')
  }

  /** The size in words to change the heap to, if its size is to change. */
  function NewSize(hsize: nat, nused: nat): (cells: Option<nat>)
    ensures cells.None? <==> hsize / 3 <= nused <= hsize / 2
    ensures var size := if cells.Some? then cells.value else hsize;
            nused <= size && Sized(hsize, nused, size)
  {
    if nused > hsize / 2 then
      var n := if nused < hsize then hsize else nused;
      Some(n + n / 3)
    else if nused < hsize / 3 then
      Some(hsize - hsize / 9)
    else
      None
  }
}
