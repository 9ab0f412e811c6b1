/** Queues as a list and a reversed list. */
module Queues {
  import opened Lists
  import opened Wrappers

  datatype Queue<T> = Queue(hd: seq<T>, rtl: seq<T>)

  function Empty<T>(): Queue<T> {
    Queue([], [])
  }

  /** The elements, first to last. */
  function Contents<T>(q: Queue<T>): seq<T> {
    q.hd + Reversed(q.rtl)
  }

  function Snoc<T>(x: T, q: Queue<T>): Queue<T> {
    Queue(q.hd, [x] + q.rtl)
  }

  /** half-rev: every other step along h, an element of l goes over to o; both come back reversed. */
  function HalfRev<T>(l: seq<T>, h: seq<T>, skip: bool, o: seq<T>): (seq<T>, seq<T>)
    requires |h| <= 2 * |l| + if skip then 1 else 0
    decreases |h|
  {
    if h == [] then (Reversed(l), Reversed(o))
    else if skip then HalfRev(l, h[1..], false, o)
    else HalfRev(l[1..], h[1..], true, [l[0]] + o)
  }

  /** quncons: the first element, if there is one, and the rest. */
  function Uncons<T>(q: Queue<T>): Option<(T, Queue<T>)> {
    if q.hd != [] then Some((q.hd[0], Queue(q.hd[1..], q.rtl)))
    else if q.rtl == [] then None
    else if |q.rtl| == 1 then Some((q.rtl[0], Empty()))
    else
      var (hd, rtl) := HalfRev(q.rtl, q.rtl, false, []);
      if hd == [] then None else Some((hd[0], Queue(hd[1..], rtl)))
  }

  lemma ReverseJoin<T>(a: seq<T>, b: seq<T>)
    ensures Reversed(a + b) == Reversed(b) + Reversed(a)
  {
  }

  lemma ReverseTwice<T>(s: seq<T>)
    ensures Reversed(Reversed(s)) == s
  {
  }

  lemma {:induction false} HalfRevKeeps<T>(l: seq<T>, h: seq<T>, skip: bool, o: seq<T>)
    requires |h| <= 2 * |l| + if skip then 1 else 0
    ensures var (hd, rtl) := HalfRev(l, h, skip, o);
            && hd + Reversed(rtl) == Reversed(l) + o
            && ((|h| + if skip then 0 else 1) / 2 < |l| ==> hd != [])
    decreases |h|
  {
    if h == [] {
      ReverseTwice(o);
    } else if skip {
      HalfRevKeeps(l, h[1..], false, o);
    } else {
      HalfRevKeeps(l[1..], h[1..], true, [l[0]] + o);
      assert Reversed(l) + o == Reversed(l[1..]) + ([l[0]] + o);
    }
  }

  lemma SnocAdds<T>(x: T, q: Queue<T>)
    ensures Contents(Snoc(x, q)) == Contents(q) + [x]
  {
    assert Reversed([x] + q.rtl) == Reversed(q.rtl) + [x] by { ReverseJoin([x], q.rtl); }
  }

  /** Taking from a queue gives its first element and leaves the others in order. */
  lemma UnconsTakes<T>(q: Queue<T>)
    ensures Uncons(q).None? <==> Contents(q) == []
    ensures Uncons(q).Some? ==> Contents(q) == [Uncons(q).value.0] + Contents(Uncons(q).value.1)
  {
    if q.hd == [] && |q.rtl| > 1 {
      HalfRevKeeps(q.rtl, q.rtl, false, []);
      var (hd, rtl) := HalfRev(q.rtl, q.rtl, false, []);
      assert hd + Reversed(rtl) == Contents(q);
      assert hd == [hd[0]] + hd[1..];
    } else if q.hd != [] {
      assert q.hd == [q.hd[0]] + q.hd[1..];
    }
  }
}
