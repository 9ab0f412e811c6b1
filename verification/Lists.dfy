/** The list operations that the compiler's passes share. */
module Lists {

  function Elems<T>(s: seq<T>): set<T> {
    set x | x in s
  }

  predicate NoDup<T(==)>(s: seq<T>) {
    s == [] || (s[0] !in s[1..] && NoDup(s[1..]))
  }

  function Union<T(==,!new)>(a: seq<T>, b: seq<T>): (r: seq<T>)
    ensures forall x :: x in r <==> x in a || x in b
  {
    if a == [] then b
    else if a[0] in b then Union(a[1..], b)
    else [a[0]] + Union(a[1..], b)
  }

  function Diff<T(==,!new)>(a: seq<T>, b: seq<T>): (r: seq<T>)
    ensures forall x :: x in r <==> x in a && x !in b
  {
    if a == [] then []
    else if a[0] in b then Diff(a[1..], b)
    else [a[0]] + Diff(a[1..], b)
  }

  lemma {:induction false} UnionNoDup<T(!new)>(a: seq<T>, b: seq<T>)
    requires NoDup(a) && NoDup(b)
    ensures NoDup(Union(a, b))
  {
    if a != [] {
      UnionNoDup(a[1..], b);
      var rest := Union(a[1..], b);
      if a[0] !in b { assert ([a[0]] + rest)[1..] == rest; }
    }
  }

  lemma {:induction false} DiffNoDup<T(!new)>(a: seq<T>, b: seq<T>)
    requires NoDup(a)
    ensures NoDup(Diff(a, b))
  {
    if a != [] {
      DiffNoDup(a[1..], b);
      var rest := Diff(a[1..], b);
      if a[0] !in b { assert ([a[0]] + rest)[1..] == rest; }
    }
  }

  lemma {:induction false} NoDupSize<T>(a: seq<T>)
    requires NoDup(a)
    ensures |Elems(a)| == |a|
  {
    if a != [] {
      NoDupSize(a[1..]);
      assert Elems(a) == {a[0]} + Elems(a[1..]);
    }
  }

  function Reversed<T>(s: seq<T>): (r: seq<T>)
    ensures |r| == |s| && forall i :: 0 <= i < |s| ==> r[i] == s[|s| - 1 - i]
  {
    if s == [] then [] else Reversed(s[1..]) + [s[0]]
  }

  lemma {:induction false} ReversedSame<T>(s: seq<T>)
    ensures multiset(Reversed(s)) == multiset(s)
  {
    if s != [] {
      ReversedSame(s[1..]);
      assert s == [s[0]] + s[1..];
    }
  }
}
