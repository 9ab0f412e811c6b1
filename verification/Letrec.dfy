/** Letrec elimination: which bindings are made together, and in what order. */
module Letrec {
  import opened Lists

  datatype Node = Node(name: nat, lambda: bool, deps: seq<nat>)

  function Names(nodes: seq<Node>): seq<nat> {
    if nodes == [] then [] else [nodes[0].name] + Names(nodes[1..])
  }

  /** The nodes whose name is in a list. */
  function Related(nodes: seq<Node>, names: seq<nat>): seq<Node> {
    if nodes == [] then []
    else (if nodes[0].name in names then [nodes[0]] else []) + Related(nodes[1..], names)
  }

  function UnionAll(current: seq<nat>, nodes: seq<Node>): (r: seq<nat>)
    decreases |nodes|
  {
    if nodes == [] then current else UnionAll(Union(current, nodes[0].deps), nodes[1..])
  }

  /** Everything that any node depends on. */
  function Mentioned(nodes: seq<Node>): set<nat> {
    if nodes == [] then {} else Elems(nodes[0].deps) + Mentioned(nodes[1..])
  }

  predicate Tidy(nodes: seq<Node>) {
    nodes == [] || (NoDup(nodes[0].deps) && Tidy(nodes[1..]))
  }

  lemma {:induction false} UnionAllIs(current: seq<nat>, nodes: seq<Node>)
    ensures Elems(UnionAll(current, nodes)) == Elems(current) + Mentioned(nodes)
    ensures NoDup(current) && Tidy(nodes) ==> NoDup(UnionAll(current, nodes))
    decreases |nodes|
  {
    if nodes != [] {
      if NoDup(current) && Tidy(nodes) { UnionNoDup(current, nodes[0].deps); }
      UnionAllIs(Union(current, nodes[0].deps), nodes[1..]);
      assert Elems(Union(current, nodes[0].deps)) == Elems(current) + Elems(nodes[0].deps);
    }
  }

  lemma {:induction false} RelatedIs(nodes: seq<Node>, names: seq<nat>)
    ensures Mentioned(Related(nodes, names)) <= Mentioned(nodes) && (Tidy(nodes) ==> Tidy(Related(nodes, names)))
    ensures forall n :: n in Related(nodes, names) <==> n in nodes && n.name in names
  {
    if nodes != [] {
      RelatedIs(nodes[1..], names);
      var rest := Related(nodes[1..], names);
      if nodes[0].name in names {
        var all := [nodes[0]] + rest;
        assert all[0] == nodes[0] && all[1..] == rest && Related(nodes, names) == all;
      } else {
        assert Related(nodes, names) == rest;
      }
    }
  }

  lemma {:induction false} MentionedHas(nodes: seq<Node>, n: Node)
    requires n in nodes
    ensures Elems(n.deps) <= Mentioned(nodes)
  {
    if n != nodes[0] { MentionedHas(nodes[1..], n); }
  }

  lemma {:induction false} MentionedFrom(nodes: seq<Node>, x: nat) returns (n: Node)
    requires x in Mentioned(nodes)
    ensures n in nodes && x in n.deps
  {
    if x in nodes[0].deps { n := nodes[0]; } else { n := MentionedFrom(nodes[1..], x); }
  }

  lemma SubsetSize(a: set<nat>, b: set<nat>)
    requires a <= b
    ensures |a| <= |b| && (|a| == |b| ==> a == b)
  {
    assert b == a + (b - a);
    if |a| == |b| { assert b - a == {}; }
  }

  lemma GrowBounds(current: seq<nat>, nodes: seq<Node>)
    requires NoDup(current) && Tidy(nodes)
    ensures var next := UnionAll(current, Related(nodes, current));
            && NoDup(next) && Elems(current) <= Elems(next) <= Elems(current) + Mentioned(nodes)
            && |current| <= |next| && (|current| == |next| ==> Elems(next) == Elems(current))
            && |Elems(current) + Mentioned(nodes)| >= |next|
  {
    RelatedIs(nodes, current);
    UnionAllIs(current, Related(nodes, current));
    var next := UnionAll(current, Related(nodes, current));
    NoDupSize(current);
    NoDupSize(next);
    SubsetSize(Elems(current), Elems(next));
    SubsetSize(Elems(next), Elems(current) + Mentioned(nodes));
  }

  /** grow: takes in what the names reached so far depend on, until nothing is added. */
  function Grow(current: seq<nat>, nodes: seq<Node>): seq<nat>
    requires NoDup(current) && Tidy(nodes)
    decreases |Elems(current) + Mentioned(nodes)| - |current|
  {
    GrowBounds(current, nodes);
    var next := UnionAll(current, Related(nodes, current));
    if |current| == |next| then current
    else
      assert Elems(next) + Mentioned(nodes) == Elems(current) + Mentioned(nodes);
      Grow(next, nodes)
  }

  function DependencyClosure(nodes: seq<Node>, all: seq<Node>): seq<Node>
    requires Tidy(nodes) && Tidy(all)
  {
    if nodes == [] then []
    else [nodes[0].(deps := Grow(nodes[0].deps, all))] + DependencyClosure(nodes[1..], all)
  }

  // ---- What grow computes ----

  ghost predicate Edge(nodes: seq<Node>, x: nat, y: nat) {
    exists n :: n in nodes && n.name == x && y in n.deps
  }

  /** A path of dependences. */
  ghost predicate Chain(nodes: seq<Node>, path: seq<nat>) {
    forall i {:trigger path[i]} :: 0 < i < |path| ==> Edge(nodes, path[i-1], path[i])
  }

  /** y is one of the names `from`, or can be reached from them by dependences. */
  ghost predicate Reached(nodes: seq<Node>, from: set<nat>, y: nat) {
    exists path :: |path| > 0 && path[0] in from && path[|path|-1] == y && Chain(nodes, path)
  }

  /** What is closed under dependences. */
  ghost predicate ClosedUnder(nodes: seq<Node>, s: set<nat>) {
    forall x, y :: x in s && Edge(nodes, x, y) ==> y in s
  }

  lemma {:induction false} ClosedHolds(nodes: seq<Node>, s: set<nat>, path: seq<nat>)
    requires ClosedUnder(nodes, s) && |path| > 0 && path[0] in s && Chain(nodes, path)
    ensures path[|path|-1] in s
    decreases |path|
  {
    if |path| > 1 {
      var front := path[..|path|-1];
      forall i | 0 < i < |front| ensures Edge(nodes, front[i-1], front[i]) {
        assert Edge(nodes, path[i-1], path[i]);
      }
      ClosedHolds(nodes, s, front);
      assert Edge(nodes, path[|path|-2], path[|path|-1]);
    }
  }

  lemma ReachedStep(nodes: seq<Node>, from: set<nat>, x: nat, y: nat)
    requires Reached(nodes, from, x) && Edge(nodes, x, y)
    ensures Reached(nodes, from, y)
  {
    var path :| |path| > 0 && path[0] in from && path[|path|-1] == x && Chain(nodes, path);
    var longer := path + [y];
    forall i | 0 < i < |longer| ensures Edge(nodes, longer[i-1], longer[i]) {
      if i < |path| { assert Edge(nodes, path[i-1], path[i]); }
    }
    assert Chain(nodes, longer) && longer[0] in from && longer[|longer|-1] == y;
  }

  lemma ReachedStart(nodes: seq<Node>, from: set<nat>, x: nat)
    requires x in from
    ensures Reached(nodes, from, x)
  {
    assert Chain(nodes, [x]) && [x][0] in from;
  }

  /** When nothing is added, what there is is closed. */
  lemma GrownClosed(current: seq<nat>, nodes: seq<Node>, x: nat, y: nat)
    requires NoDup(current) && Tidy(nodes) && |UnionAll(current, Related(nodes, current))| == |current|
    requires x in current && Edge(nodes, x, y)
    ensures y in current
  {
    GrowBounds(current, nodes);
    RelatedIs(nodes, current);
    UnionAllIs(current, Related(nodes, current));
    var n :| n in nodes && n.name == x && y in n.deps;
    MentionedHas(Related(nodes, current), n);
    assert y in Elems(n.deps) && y in Elems(current);
  }

  lemma AddedReached(current: seq<nat>, nodes: seq<Node>, from: set<nat>, x: nat)
    requires forall x :: x in current ==> Reached(nodes, from, x)
    requires x in UnionAll(current, Related(nodes, current))
    ensures Reached(nodes, from, x)
  {
    var related := Related(nodes, current);
    RelatedIs(nodes, current);
    UnionAllIs(current, related);
    assert x in Elems(UnionAll(current, related));
    if x !in current {
      var n := MentionedFrom(related, x);
      assert Edge(nodes, n.name, x);
      ReachedStep(nodes, from, n.name, x);
    }
  }

  lemma {:induction false} GrowReached(current: seq<nat>, nodes: seq<Node>, from: set<nat>)
    requires NoDup(current) && Tidy(nodes) && from <= Elems(current)
    requires forall x :: x in current ==> Reached(nodes, from, x)
    ensures NoDup(Grow(current, nodes)) && from <= Elems(Grow(current, nodes))
         && ClosedUnder(nodes, Elems(Grow(current, nodes)))
    ensures forall x :: x in Grow(current, nodes) ==> Reached(nodes, from, x)
    decreases |Elems(current) + Mentioned(nodes)| - |current|
  {
    hide Reached;
    GrowBounds(current, nodes);
    var next := UnionAll(current, Related(nodes, current));
    if |current| == |next| {
      forall x, y | x in Elems(current) && Edge(nodes, x, y) ensures y in Elems(current) {
        GrownClosed(current, nodes, x, y);
      }
    } else {
      forall x | x in next ensures Reached(nodes, from, x) {
        AddedReached(current, nodes, from, x);
      }
      assert Elems(next) + Mentioned(nodes) == Elems(current) + Mentioned(nodes);
      GrowReached(next, nodes, from);
    }
  }

  /** grow computes exactly the names that can be reached from the given ones. */
  lemma GrowIsReach(current: seq<nat>, nodes: seq<Node>, y: nat)
    requires NoDup(current) && Tidy(nodes)
    ensures y in Grow(current, nodes) <==> Reached(nodes, Elems(current), y)
  {
    forall x | x in current ensures Reached(nodes, Elems(current), x) {
      ReachedStart(nodes, Elems(current), x);
    }
    GrowReached(current, nodes, Elems(current));
    if Reached(nodes, Elems(current), y) {
      var path :| |path| > 0 && path[0] in Elems(current) && path[|path|-1] == y && Chain(nodes, path);
      ClosedHolds(nodes, Elems(Grow(current, nodes)), path);
    }
  }

  // ---- Picking what to bind next ----

  datatype Picked = Trivial(nodes: seq<Node>) | Simple(nodes: seq<Node>) | Mutual(nodes: seq<Node>) | Stuck

  function KeepTrivial(nodes: seq<Node>): (r: seq<Node>)
    ensures forall n :: n in r <==> n in nodes && n.deps == []
  {
    if nodes == [] then [] else (if nodes[0].deps == [] then [nodes[0]] else []) + KeepTrivial(nodes[1..])
  }

  function KeepSimple(nodes: seq<Node>): (r: seq<Node>)
    ensures forall n :: n in r <==> n in nodes && n.lambda && n.deps == [n.name]
  {
    if nodes == [] then []
    else (if nodes[0].lambda && nodes[0].deps == [nodes[0].name] then [nodes[0]] else []) + KeepSimple(nodes[1..])
  }

  function KeepLambda(nodes: seq<Node>): (r: seq<Node>)
    ensures forall n :: n in r <==> n in nodes && n.lambda
  {
    if nodes == [] then [] else (if nodes[0].lambda then [nodes[0]] else []) + KeepLambda(nodes[1..])
  }

  /** The first of those with the fewest dependences. */
  function Least(lead: Node, nodes: seq<Node>): (r: Node)
    ensures r == lead || r in nodes
    ensures |r.deps| <= |lead.deps| && forall n :: n in nodes ==> |r.deps| <= |n.deps|
    decreases |nodes|
  {
    if nodes == [] then lead else Least(if |nodes[0].deps| < |lead.deps| then nodes[0] else lead, nodes[1..])
  }

  function Pick(nodes: seq<Node>): Picked {
    if KeepTrivial(nodes) != [] then Trivial(KeepTrivial(nodes))
    else if KeepSimple(nodes) != [] then Simple(KeepSimple(nodes))
    else
      var lambdas := KeepLambda(nodes);
      if lambdas == [] then Stuck
      else
        var related := Related(nodes, Least(lambdas[0], lambdas[1..]).deps);
        if related == [] then Stuck else Mutual(related)
  }

  function RemoveDeps(lost: seq<nat>, nodes: seq<Node>): (r: seq<Node>)
    ensures |r| <= |nodes|
  {
    if nodes == [] then []
    else if nodes[0].name in lost then RemoveDeps(lost, nodes[1..])
    else [nodes[0].(deps := Diff(nodes[0].deps, lost))] + RemoveDeps(lost, nodes[1..])
  }

  predicate Differs(nodes: seq<Node>, partition: seq<nat>) {
    exists n :: n in nodes && Diff(n.deps, partition) != []
  }

  /** The groups of names that are bound together, outermost first, or one of the two errors. */
  datatype Result = Groups(groups: seq<seq<nat>>) | PartitionsDiffer | Unresolved

  function Generate(nodes: seq<Node>): Result
    decreases |nodes|
  {
    if nodes == [] then Groups([])
    else
      var picked := Pick(nodes);
      if picked.Stuck? then Unresolved
      else if picked.Mutual? && Differs(picked.nodes, picked.nodes[0].deps) then PartitionsDiffer
      else
        var names := Names(picked.nodes);
        PickedNames(nodes);
        RemoveSome(names, nodes, picked.nodes[0]);
        var rest := Generate(RemoveDeps(names, nodes));
        if rest.Groups? then Groups([names] + rest.groups) else rest
  }

  lemma {:induction false} NamesHas(nodes: seq<Node>)
    ensures forall n :: n in nodes ==> n.name in Names(nodes)
  {
    if nodes != [] { NamesHas(nodes[1..]); }
  }

  lemma {:induction false} NamesFrom(nodes: seq<Node>, x: nat) returns (n: Node)
    requires x in Names(nodes)
    ensures n in nodes && n.name == x
  {
    if nodes[0].name == x { n := nodes[0]; } else { n := NamesFrom(nodes[1..], x); }
  }

  lemma PickedNames(nodes: seq<Node>)
    requires !Pick(nodes).Stuck?
    ensures var p := Pick(nodes).nodes;
            p != [] && (forall n :: n in p ==> n in nodes && n.name in Names(p))
  {
    NamesHas(Pick(nodes).nodes);
    var lambdas := KeepLambda(nodes);
    if Pick(nodes).Mutual? { RelatedIs(nodes, Least(lambdas[0], lambdas[1..]).deps); }
  }

  lemma {:induction false} RemoveSome(lost: seq<nat>, nodes: seq<Node>, n: Node)
    requires n in nodes && n.name in lost
    ensures |RemoveDeps(lost, nodes)| < |nodes|
  {
    if n != nodes[0] { RemoveSome(lost, nodes[1..], n); }
  }

  // ---- Progress ----

  /** Dependences that have been closed: every name that is depended on is there, and a node depends on
      all that its dependences depend on. */
  ghost predicate Closed(nodes: seq<Node>) {
    && NoDup(Names(nodes)) && Tidy(nodes)
    && (forall n, x :: n in nodes && x in n.deps ==> x in Names(nodes))
    && (forall n, m, x :: n in nodes && m in nodes && m.name in n.deps && x in m.deps ==> x in n.deps)
  }

  predicate AllLambda(nodes: seq<Node>) {
    forall n :: n in nodes ==> n.lambda
  }

  /** Whatever depends on itself is a lambda. */
  predicate LambdaLoops(nodes: seq<Node>) {
    forall n :: n in nodes && n.name in n.deps ==> n.lambda
  }

  lemma {:induction false} TidyHas(nodes: seq<Node>, n: Node)
    requires Tidy(nodes) && n in nodes
    ensures NoDup(n.deps)
  {
    if n != nodes[0] { TidyHas(nodes[1..], n); }
  }

  /** The nodes of a group depend, among what is left, on each other at most. */
  ghost predicate Contained(p: seq<Node>) {
    forall n, x :: n in p && x in n.deps ==> x in Names(p)
  }

  /** In a mutual group each node depends on all of the group. */
  ghost predicate StronglyConnected(p: seq<Node>) {
    forall n, x :: n in p && x in Names(p) ==> x in n.deps
  }

  /** All the members of the group around the node with the fewest dependences have the same ones. */
  lemma LeastGroup(nodes: seq<Node>, least: Node, x: Node)
    requires Closed(nodes) && least in nodes && x in nodes && x.name in least.deps && |least.deps| <= |x.deps|
    ensures Elems(x.deps) == Elems(least.deps)
  {
    TidyHas(nodes, least);
    TidyHas(nodes, x);
    NoDupSize(least.deps);
    NoDupSize(x.deps);
    SubsetSize(Elems(x.deps), Elems(least.deps));
  }

  lemma {:induction false} DiffEmpty(a: seq<nat>, b: seq<nat>)
    requires forall x :: x in a ==> x in b
    ensures Diff(a, b) == []
  {
    if a != [] { DiffEmpty(a[1..], b); }
  }

  lemma MutualGroup(nodes: seq<Node>, least: Node)
    requires Closed(nodes) && LambdaLoops(nodes) && least in nodes && least.deps != []
    requires forall n :: n in nodes ==> |least.deps| <= |n.deps|
    ensures var p := Related(nodes, least.deps);
            && p != [] && Contained(p) && StronglyConnected(p) && !Differs(p, p[0].deps) && AllLambda(p)
  {
    var p := Related(nodes, least.deps);
    RelatedIs(nodes, least.deps);
    NamesHas(p);
    var first := NamesFrom(nodes, least.deps[0]);
    assert first in p;
    forall x ensures x in Names(p) <==> x in least.deps {
      if x in Names(p) { var n := NamesFrom(p, x); }
      if x in least.deps {
        var n := NamesFrom(nodes, x);
        assert n in p;
      }
    }
    forall n | n in p ensures forall x :: x in n.deps <==> x in least.deps {
      LeastGroup(nodes, least, n);
      assert forall x :: x in n.deps <==> x in Elems(n.deps);
      assert forall x :: x in least.deps <==> x in Elems(least.deps);
    }
    forall n | n in p ensures Diff(n.deps, p[0].deps) == [] {
      assert p[0] in p;
      DiffEmpty(n.deps, p[0].deps);
    }
  }

  /** The first of those with the fewest dependences is a node, and none has fewer. */
  lemma LeastOfAll(nodes: seq<Node>)
    requires nodes != []
    ensures var m := Least(nodes[0], nodes[1..]); m in nodes && forall n :: n in nodes ==> |m.deps| <= |n.deps|
  {
    assert forall n :: n in nodes ==> n == nodes[0] || n in nodes[1..];
  }

  /** When nothing is without dependences, what a node with the fewest depends on depends on itself, and is a lambda. */
  lemma LoopFound(nodes: seq<Node>) returns (y: Node)
    requires Closed(nodes) && LambdaLoops(nodes) && nodes != [] && forall n :: n in nodes ==> n.deps != []
    ensures y in nodes && y.lambda && forall n :: n in nodes ==> |y.deps| <= |n.deps|
  {
    LeastOfAll(nodes);
    var m := Least(nodes[0], nodes[1..]);
    assert m.deps[0] in m.deps;
    y := NamesFrom(nodes, m.deps[0]);
    LeastGroup(nodes, m, y);
    assert y.name in Elems(m.deps) && y.name in Elems(y.deps);
    TidyHas(nodes, m);
    TidyHas(nodes, y);
    NoDupSize(m.deps);
    NoDupSize(y.deps);
  }

  /** While there is something left to bind, something can be bound; only lambdas are bound as mutually recursive. */
  lemma PickProgress(nodes: seq<Node>)
    requires Closed(nodes) && LambdaLoops(nodes) && nodes != []
    ensures var picked := Pick(nodes);
            && !picked.Stuck? && Contained(picked.nodes)
            && (picked.Mutual? ==>
                  && StronglyConnected(picked.nodes) && !Differs(picked.nodes, picked.nodes[0].deps)
                  && AllLambda(picked.nodes))
  {
    var picked := Pick(nodes);
    if KeepTrivial(nodes) == [] && KeepSimple(nodes) == [] {
      forall n | n in nodes ensures n.deps != [] {
        assert n !in KeepTrivial(nodes);
      }
      var y := LoopFound(nodes);
      var lambdas := KeepLambda(nodes);
      assert y in lambdas;
      LeastOfAll(lambdas);
      MutualGroup(nodes, Least(lambdas[0], lambdas[1..]));
    } else {
      NamesHas(picked.nodes);
    }
  }

  lemma {:induction false} RemoveDepsIs(lost: seq<nat>, nodes: seq<Node>)
    ensures forall m :: m in RemoveDeps(lost, nodes) ==>
              exists n :: n in nodes && n.name !in lost && m == n.(deps := Diff(n.deps, lost))
    ensures forall x :: x in Names(RemoveDeps(lost, nodes)) <==> x in Names(nodes) && x !in lost
    ensures NoDup(Names(nodes)) ==> NoDup(Names(RemoveDeps(lost, nodes)))
    ensures Tidy(nodes) ==> Tidy(RemoveDeps(lost, nodes))
  {
    if nodes != [] {
      RemoveDepsIs(lost, nodes[1..]);
      var rest := RemoveDeps(lost, nodes[1..]);
      if nodes[0].name !in lost {
        var m := nodes[0].(deps := Diff(nodes[0].deps, lost));
        assert ([m] + rest)[1..] == rest;
        if Tidy(nodes) { DiffNoDup(nodes[0].deps, lost); }
      }
    }
  }

  /** The node of `nodes` that m is what is left of. */
  lemma Original(lost: seq<nat>, nodes: seq<Node>, m: Node) returns (n: Node)
    requires m in RemoveDeps(lost, nodes)
    ensures n in nodes && n.name == m.name && n.name !in lost && n.lambda == m.lambda && m.deps == Diff(n.deps, lost)
  {
    RemoveDepsIs(lost, nodes);
    n :| n in nodes && n.name !in lost && m == n.(deps := Diff(n.deps, lost));
  }

  /** Dependences stay closed when what has been bound is removed. */
  lemma RemoveKeepsClosed(lost: seq<nat>, nodes: seq<Node>)
    requires Closed(nodes)
    ensures Closed(RemoveDeps(lost, nodes)) && (LambdaLoops(nodes) ==> LambdaLoops(RemoveDeps(lost, nodes)))
  {
    var rest := RemoveDeps(lost, nodes);
    RemoveDepsIs(lost, nodes);
    forall m, x | m in rest && x in m.deps ensures x in Names(rest) {
      var n := Original(lost, nodes, m);
    }
    forall m, k, x | m in rest && k in rest && k.name in m.deps && x in k.deps ensures x in m.deps {
      var n := Original(lost, nodes, m);
      var n' := Original(lost, nodes, k);
    }
    if LambdaLoops(nodes) {
      forall m | m in rest && m.name in m.deps ensures m.lambda {
        var n := Original(lost, nodes, m);
      }
    }
  }

  function Flatten(groups: seq<seq<nat>>): seq<nat> {
    if groups == [] then [] else groups[0] + Flatten(groups[1..])
  }

  /** Names that are bound together only depend on each other mutually. */
  ghost predicate Together(nodes: seq<Node>, group: seq<nat>) {
    forall n, m :: n in nodes && m in nodes && n.name in group && m.name in group && m.name in n.deps ==>
      n.name in m.deps
  }

  ghost predicate Leans(nodes: seq<Node>, group: seq<nat>, before: set<nat>) {
    forall n, x :: n in nodes && n.name in group && x in n.deps ==> x in before || x in group
  }

  /** Each group depends on itself and on the groups before it only, on itself only mutually. */
  ghost predicate InOrder(nodes: seq<Node>, groups: seq<seq<nat>>, before: set<nat>) {
    groups == [] ||
    (Together(nodes, groups[0]) && Leans(nodes, groups[0], before)
     && InOrder(nodes, groups[1..], before + Elems(groups[0])))
  }

  /** m is what is left of n when the names in `before` have been bound. */
  ghost predicate Rest(m: Node, n: Node, before: set<nat>) {
    && m.name == n.name && (forall x :: x in n.deps ==> x in before || x in m.deps)
    && (forall x :: x in m.deps ==> x in n.deps)
  }

  ghost predicate LeftOf(left: seq<Node>, nodes: seq<Node>, before: set<nat>) {
    && (forall n :: n in nodes && n.name in Names(left) ==> exists m :: m in left && Rest(m, n, before))
    && forall x :: x in Names(left) ==> x !in before
  }

  lemma {:induction false} DistinctNodes(nodes: seq<Node>, a: Node, b: Node)
    requires NoDup(Names(nodes)) && a in nodes && b in nodes && a.name == b.name
    ensures a == b
  {
    NamesHas(nodes[1..]);
    if a != nodes[0] && b != nodes[0] { DistinctNodes(nodes[1..], a, b); }
  }

  lemma {:induction false} RemoveDepsHas(lost: seq<nat>, nodes: seq<Node>, n: Node)
    requires n in nodes && n.name !in lost
    ensures n.(deps := Diff(n.deps, lost)) in RemoveDeps(lost, nodes)
  {
    if n != nodes[0] { RemoveDepsHas(lost, nodes[1..], n); }
  }

  lemma LeftStep(left: seq<Node>, nodes: seq<Node>, before: set<nat>, names: seq<nat>)
    requires LeftOf(left, nodes, before)
    ensures LeftOf(RemoveDeps(names, left), nodes, before + Elems(names))
  {
    var rest := RemoveDeps(names, left);
    RemoveDepsIs(names, left);
    forall n | n in nodes && n.name in Names(rest) ensures exists m :: m in rest && Rest(m, n, before + Elems(names)) {
      var m :| m in left && Rest(m, n, before);
      RemoveDepsHas(names, left, m);
      assert Rest(m.(deps := Diff(m.deps, names)), n, before + Elems(names));
    }
  }

  /** What was picked, with the dependences it has left. */
  lemma PickedRest(left: seq<Node>, nodes: seq<Node>, before: set<nat>, n: Node) returns (m: Node)
    requires Closed(left) && !Pick(left).Stuck? && LeftOf(left, nodes, before)
    requires n in nodes && n.name in Names(Pick(left).nodes)
    ensures m in Pick(left).nodes && m in left && Rest(m, n, before) && n.name !in before
  {
    PickedNames(left);
    m := NamesFrom(Pick(left).nodes, n.name);
    NamesHas(left);
    var m' :| m' in left && Rest(m', n, before);
    DistinctNodes(left, m, m');
  }

  lemma GroupLeans(left: seq<Node>, nodes: seq<Node>, before: set<nat>)
    requires Closed(left) && !Pick(left).Stuck? && Contained(Pick(left).nodes) && LeftOf(left, nodes, before)
    ensures Leans(nodes, Names(Pick(left).nodes), before)
  {
    forall n, x | n in nodes && n.name in Names(Pick(left).nodes) && x in n.deps
      ensures x in before || x in Names(Pick(left).nodes)
    {
      var m := PickedRest(left, nodes, before, n);
    }
  }

  lemma GroupTogether(left: seq<Node>, nodes: seq<Node>, before: set<nat>)
    requires Closed(left) && !Pick(left).Stuck? && LeftOf(left, nodes, before)
    requires Pick(left).Mutual? ==> StronglyConnected(Pick(left).nodes)
    ensures Together(nodes, Names(Pick(left).nodes))
  {
    var group := Names(Pick(left).nodes);
    forall n, m | n in nodes && m in nodes && n.name in group && m.name in group && m.name in n.deps
      ensures n.name in m.deps
    {
      var n' := PickedRest(left, nodes, before, n);
      var m' := PickedRest(left, nodes, before, m);
      assert m.name in n'.deps;
      if Pick(left).Simple? { assert n'.deps == [n'.name]; assert n'.name in n'.deps; DistinctNodes(left, n', m'); }
    }
  }

  lemma {:induction false} GenerateOrdered(left: seq<Node>, nodes: seq<Node>, before: set<nat>)
    requires Closed(left) && LambdaLoops(left) && LeftOf(left, nodes, before)
    ensures Generate(left).Groups? && InOrder(nodes, Generate(left).groups, before)
    decreases |left|
  {
    if left != [] {
      PickProgress(left);
      PickedNames(left);
      var p := Pick(left).nodes;
      var names := Names(p);
      RemoveSome(names, left, p[0]);
      RemoveKeepsClosed(names, left);
      LeftStep(left, nodes, before, names);
      GenerateOrdered(RemoveDeps(names, left), nodes, before + Elems(names));
      GroupLeans(left, nodes, before);
      GroupTogether(left, nodes, before);
      var rest := Generate(RemoveDeps(names, left)).groups;
      assert ([names] + rest)[1..] == rest;
    }
  }

  lemma {:induction false} NamesSplit(nodes: seq<Node>, p: seq<Node>)
    requires NoDup(Names(nodes)) && NoDup(Names(p)) && forall x :: x in Names(p) ==> x in Names(nodes)
    ensures multiset(Names(p)) + multiset(Names(RemoveDeps(Names(p), nodes))) == multiset(Names(nodes))
  {
    var rest := RemoveDeps(Names(p), nodes);
    RemoveDepsIs(Names(p), nodes);
    forall x ensures (multiset(Names(p)) + multiset(Names(rest)))[x] == multiset(Names(nodes))[x] {
      OnceEach(Names(p), x);
      OnceEach(Names(rest), x);
      OnceEach(Names(nodes), x);
    }
  }

  lemma {:induction false} OnceEach(s: seq<nat>, x: nat)
    requires NoDup(s)
    ensures multiset(s)[x] == if x in s then 1 else 0
  {
    if s != [] {
      OnceEach(s[1..], x);
      assert s == [s[0]] + s[1..];
    }
  }

  /** A list that is some nodes kept, in order, from another. */
  ghost predicate KeptOf(kept: seq<Node>, nodes: seq<Node>) {
    NoDup(Names(kept)) && forall x :: x in Names(kept) ==> x in Names(nodes)
  }

  lemma KeepOne(kept: seq<Node>, nodes: seq<Node>, keep: bool)
    requires nodes != [] && NoDup(Names(nodes)) && KeptOf(kept, nodes[1..])
    ensures KeptOf((if keep then [nodes[0]] else []) + kept, nodes)
  {
    if keep {
      var all := [nodes[0]] + kept;
      assert all[1..] == kept;
      assert Names(all)[1..] == Names(kept) && Names(nodes)[1..] == Names(nodes[1..]);
    } else {
      assert [] + kept == kept;
    }
  }

  /** The nodes that are kept have different names too. */
  lemma {:induction false} KeptNames(nodes: seq<Node>, names: seq<nat>)
    requires NoDup(Names(nodes))
    ensures KeptOf(KeepTrivial(nodes), nodes) && KeptOf(KeepSimple(nodes), nodes)
         && KeptOf(Related(nodes, names), nodes)
  {
    if nodes != [] {
      KeptNames(nodes[1..], names);
      var n := nodes[0];
      KeepOne(KeepTrivial(nodes[1..]), nodes, n.deps == []);
      KeepOne(KeepSimple(nodes[1..]), nodes, n.lambda && n.deps == [n.name]);
      KeepOne(Related(nodes[1..], names), nodes, n.name in names);
    }
  }

  lemma PickedDistinct(nodes: seq<Node>)
    requires NoDup(Names(nodes)) && !Pick(nodes).Stuck?
    ensures NoDup(Names(Pick(nodes).nodes)) && forall x :: x in Names(Pick(nodes).nodes) ==> x in Names(nodes)
  {
    var lambdas := KeepLambda(nodes);
    KeptNames(nodes, if lambdas == [] then [] else Least(lambdas[0], lambdas[1..]).deps);
  }

  lemma {:induction false} GenerateBindsAll(nodes: seq<Node>)
    requires NoDup(Names(nodes)) && Generate(nodes).Groups?
    ensures multiset(Flatten(Generate(nodes).groups)) == multiset(Names(nodes))
    decreases |nodes|
  {
    if nodes != [] {
      PickedNames(nodes);
      PickedDistinct(nodes);
      var p := Pick(nodes).nodes;
      var names := Names(p);
      RemoveSome(names, nodes, p[0]);
      RemoveDepsIs(names, nodes);
      GenerateBindsAll(RemoveDeps(names, nodes));
      NamesSplit(nodes, p);
      var rest := Generate(RemoveDeps(names, nodes)).groups;
      assert ([names] + rest)[1..] == rest;
    }
  }

  // ---- The whole elimination ----

  /** Bindings as they are found: different names, and each value's free variables among them. */
  ghost predicate Bindings(nodes: seq<Node>) {
    NoDup(Names(nodes)) && Tidy(nodes) && forall n, x :: n in nodes && x in n.deps ==> x in Names(nodes)
  }

  lemma {:induction false} ClosureIs(nodes: seq<Node>, all: seq<Node>)
    requires Tidy(nodes) && Tidy(all)
    ensures Names(DependencyClosure(nodes, all)) == Names(nodes)
    ensures forall i :: 0 <= i < |nodes| ==>
              && i < |DependencyClosure(nodes, all)| && NoDup(nodes[i].deps)
              && DependencyClosure(nodes, all)[i] == nodes[i].(deps := Grow(nodes[i].deps, all))
    ensures |DependencyClosure(nodes, all)| == |nodes| && Tidy(DependencyClosure(nodes, all))
  {
    if nodes != [] {
      ClosureIs(nodes[1..], all);
      GrowAll(nodes[0].deps, all);
      var m, rest := nodes[0].(deps := Grow(nodes[0].deps, all)), DependencyClosure(nodes[1..], all);
      assert ([m] + rest)[1..] == rest;
    }
  }

  lemma GrowAll(deps: seq<nat>, all: seq<Node>)
    requires NoDup(deps) && Tidy(all)
    ensures NoDup(Grow(deps, all)) && ClosedUnder(all, Elems(Grow(deps, all)))
         && (forall x :: x in deps ==> x in Grow(deps, all))
  {
    forall x | x in deps ensures Reached(all, Elems(deps), x) {
      ReachedStart(all, Elems(deps), x);
    }
    GrowReached(deps, all, Elems(deps));
    forall x | x in deps ensures x in Grow(deps, all) {
      assert x in Elems(Grow(deps, all));
    }
  }

  /** grow stays among the names. */
  lemma GrowAmong(deps: seq<nat>, all: seq<Node>, y: nat)
    requires Bindings(all) && NoDup(deps) && (forall x :: x in deps ==> x in Names(all)) && y in Grow(deps, all)
    ensures y in Names(all)
  {
    GrowIsReach(deps, all, y);
    var path :| |path| > 0 && path[0] in Elems(deps) && path[|path|-1] == y && Chain(all, path);
    if |path| > 1 {
      assert Edge(all, path[|path|-2], path[|path|-1]);
      var n :| n in all && n.name == path[|path|-2] && y in n.deps;
    }
  }

  /** grow from a name that has been reached adds nothing. */
  lemma GrowWithin(n: seq<nat>, m: Node, all: seq<Node>, y: nat)
    requires Tidy(all) && NoDup(n) && m in all && NoDup(m.deps) && m.name in Grow(n, all) && y in Grow(m.deps, all)
    ensures y in Grow(n, all)
  {
    GrowAll(n, all);
    GrowIsReach(m.deps, all, y);
    var path :| |path| > 0 && path[0] in Elems(m.deps) && path[|path|-1] == y && Chain(all, path);
    assert Edge(all, m.name, path[0]);
    ClosedHolds(all, Elems(Grow(n, all)), path);
  }

  lemma ClosureCloses(nodes: seq<Node>)
    requires Bindings(nodes)
    ensures Closed(DependencyClosure(nodes, nodes))
    ensures AllLambda(nodes) ==> AllLambda(DependencyClosure(nodes, nodes))
  {
    var c := DependencyClosure(nodes, nodes);
    ClosureIs(nodes, nodes);
    forall n, x | n in c && x in n.deps ensures x in Names(c) {
      var i :| 0 <= i < |c| && c[i] == n;
      assert nodes[i] in nodes;
      GrowAmong(nodes[i].deps, nodes, x);
    }
    forall n, m, x | n in c && m in c && m.name in n.deps && x in m.deps ensures x in n.deps {
      var i :| 0 <= i < |c| && c[i] == n;
      var j :| 0 <= j < |c| && c[j] == m;
      GrowWithin(nodes[i].deps, nodes[j], nodes, x);
    }
  }

  /** No value but a lambda depends on itself, however far around. */
  ghost predicate Grounded(nodes: seq<Node>) {
    forall n :: n in nodes && !n.lambda ==> !Reached(nodes, Elems(n.deps), n.name)
  }

  lemma GroundedLoops(nodes: seq<Node>)
    requires Bindings(nodes)
    ensures LambdaLoops(DependencyClosure(nodes, nodes)) <==> Grounded(nodes)
  {
    var c := DependencyClosure(nodes, nodes);
    ClosureIs(nodes, nodes);
    forall i | 0 <= i < |nodes|
      ensures c[i].name in c[i].deps <==> Reached(nodes, Elems(nodes[i].deps), nodes[i].name)
    {
      GrowIsReach(nodes[i].deps, nodes, nodes[i].name);
    }
    if LambdaLoops(c) {
      forall n | n in nodes && !n.lambda ensures !Reached(nodes, Elems(n.deps), n.name) {
        var i :| 0 <= i < |nodes| && nodes[i] == n;
        assert c[i] in c;
      }
    }
    if Grounded(nodes) {
      forall n | n in c && n.name in n.deps ensures n.lambda {
        var i :| 0 <= i < |c| && c[i] == n;
        assert nodes[i] in nodes;
      }
    }
  }

  /** Everything can be bound, and only lambdas are bound as recursive functions. */
  ghost predicate Bindable(nodes: seq<Node>)
    decreases |nodes|
  {
    nodes == [] ||
    var picked := Pick(nodes);
    && !picked.Stuck?
    && (picked.Mutual? ==> !Differs(picked.nodes, picked.nodes[0].deps) && AllLambda(picked.nodes))
    && (PickedNames(nodes);
        RemoveSome(Names(picked.nodes), nodes, picked.nodes[0]);
        Bindable(RemoveDeps(Names(picked.nodes), nodes)))
  }

  lemma {:induction false} LoopsBindable(nodes: seq<Node>)
    requires Closed(nodes)
    ensures Bindable(nodes) <==> LambdaLoops(nodes)
    ensures Bindable(nodes) ==> Generate(nodes).Groups?
    decreases |nodes|
  {
    hide Closed, LambdaLoops, Pick, Contained, StronglyConnected, Differs, AllLambda, RemoveDeps, Names;
    if nodes == [] {
      NothingLoops();
    } else {
      if LambdaLoops(nodes) { PickProgress(nodes); }
      if !Pick(nodes).Stuck? {
        var p := Pick(nodes).nodes;
        PickedNames(nodes);
        RemoveSome(Names(p), nodes, p[0]);
        RemoveKeepsClosed(Names(p), nodes);
        LoopsBindable(RemoveDeps(Names(p), nodes));
        if !LambdaLoops(nodes) && (Pick(nodes).Mutual? ==> AllLambda(p)) { LoopStays(nodes); }
      }
    }
  }

  lemma NothingLoops()
    ensures LambdaLoops([])
  {
  }

  /** A value that depends on itself is bound as a recursive function, or is still there. */
  lemma LoopStays(nodes: seq<Node>)
    requires Closed(nodes) && !Pick(nodes).Stuck? && !LambdaLoops(nodes)
    requires Pick(nodes).Mutual? ==> AllLambda(Pick(nodes).nodes)
    ensures !LambdaLoops(RemoveDeps(Names(Pick(nodes).nodes), nodes))
  {
    var n :| n in nodes && n.name in n.deps && !n.lambda;
    var p := Pick(nodes).nodes;
    PickedNames(nodes);
    if n.name in Names(p) {
      var m := NamesFrom(p, n.name);
      DistinctNodes(nodes, m, n);
      assert false;
    }
    RemoveDepsHas(Names(p), nodes, n);
    assert n.name in Diff(n.deps, Names(p));
  }

  /** Everything can be bound, lambdas only as recursive functions, if and only if no other value depends on itself; and
      then neither error occurs, every name is bound exactly once, and each group depends on earlier groups and,
      mutually, on itself only. */
  lemma EliminationSucceeds(nodes: seq<Node>)
    requires Bindings(nodes)
    ensures Bindable(DependencyClosure(nodes, nodes)) <==> Grounded(nodes)
    ensures var c := DependencyClosure(nodes, nodes);
            Grounded(nodes) ==>
              && Generate(c).Groups?
              && multiset(Flatten(Generate(c).groups)) == multiset(Names(nodes))
              && InOrder(c, Generate(c).groups, {})
  {
    var c := DependencyClosure(nodes, nodes);
    ClosureCloses(nodes);
    ClosureIs(nodes, nodes);
    GroundedLoops(nodes);
    LoopsBindable(c);
    if Grounded(nodes) {
      forall n | n in c && n.name in Names(c) ensures exists m :: m in c && Rest(m, n, {}) {
        assert Rest(n, n, {});
      }
      GenerateOrdered(c, c, {});
      GenerateBindsAll(c);
    }
  }

  /** When all bindings are lambdas there is nothing else to depend on itself. */
  lemma LambdasGrounded(nodes: seq<Node>)
    requires AllLambda(nodes)
    ensures Grounded(nodes)
  {
  }
}
