/** Modules and what they depend on, as a directed graph that may have cycles. */
module ModuleGraph {
  import opened DataRequest

  // for each module, the modules it depends on
  type Graph = map<Id, set<Id>>

  ghost predicate Edge(g: Graph, a: Id, b: Id) {
    a in g && b in g[a]
  }

  ghost predicate IsPath(g: Graph, p: seq<Id>) {
    p != [] && forall i :: 0 < i < |p| ==> Edge(g, p[i - 1], p[i])
  }

  ghost predicate Connects(g: Graph, p: seq<Id>, a: Id, b: Id) {
    IsPath(g, p) && p[0] == a && p[|p| - 1] == b
  }

  // a is b, or depends on b directly or through others
  ghost predicate Reaches(g: Graph, a: Id, b: Id) {
    exists p :: Connects(g, p, a, b)
  }

  lemma ReachesItself(g: Graph, a: Id)
    ensures Reaches(g, a, a)
  {
    assert Connects(g, [a], a, a);
  }

  lemma ReachesFurther(g: Graph, a: Id, b: Id, c: Id)
    requires Reaches(g, a, b) && Edge(g, b, c)
    ensures Reaches(g, a, c)
  {
    var p :| Connects(g, p, a, b);
    assert Connects(g, p + [c], a, c);
  }

  // what is closed under the edges and contains a contains all that a reaches
  lemma {:induction false} ClosedHasReachable(g: Graph, s: set<Id>, p: seq<Id>)
    requires IsPath(g, p) && p[0] in s
    requires forall a, b :: a in s && Edge(g, a, b) ==> b in s
    ensures p[|p| - 1] in s
  {
    if |p| > 1 {
      var n := |p| - 1;
      ClosedHasReachable(g, s, p[..n]);
      assert Edge(g, p[n - 1], p[n]);
    }
  }

  ghost predicate NoDuplicates(s: seq<Id>) {
    forall i, j :: 0 <= i < j < |s| ==> s[i] != s[j]
  }

  // nobody depends on a module that leads back to it
  ghost predicate Acyclic(g: Graph) {
    forall a, b :: Edge(g, a, b) ==> !Reaches(g, b, a)
  }

  // wherever a dependency stands behind its dependent, it leads back to it
  ghost predicate BehindOnlyOnCycles(g: Graph, order: seq<Id>) {
    forall i, j :: 0 <= i < j < |order| && Edge(g, order[i], order[j]) ==> Reaches(g, order[j], order[i])
  }

  // from position n on: every dependency stands in front or leads back
  ghost predicate OrderedFrom(g: Graph, order: seq<Id>, n: nat) {
    forall i, d :: n <= i < |order| && Edge(g, order[i], d) ==> d in order[..i] || Reaches(g, d, order[i])
  }

  lemma OrderedWith(g: Graph, order: seq<Id>, n: nat, id: Id)
    requires OrderedFrom(g, order, n)
    requires forall d :: Edge(g, id, d) ==> d in order || Reaches(g, d, id)
    ensures OrderedFrom(g, order + [id], n)
  {
    var more := order + [id];
    forall i, d | n <= i < |more| && Edge(g, more[i], d)
      ensures d in more[..i] || Reaches(g, d, more[i])
    {
      assert more[..i] == order[..i];
    }
  }

  // two stretches that follow their dependencies
  lemma OrderedTogether(g: Graph, first: seq<Id>, order: seq<Id>, n: nat)
    requires first <= order
    requires OrderedFrom(g, first, n) && OrderedFrom(g, order, |first|)
    ensures OrderedFrom(g, order, n)
  {
    forall i, d | n <= i < |order| && Edge(g, order[i], d)
      ensures d in order[..i] || Reaches(g, d, order[i])
    {
      if i < |first| {
        assert order[..i] == first[..i] && order[i] == first[i];
      }
    }
  }

  lemma OrderedIsBehindOnlyOnCycles(g: Graph, order: seq<Id>)
    requires NoDuplicates(order) && OrderedFrom(g, order, 0)
    ensures BehindOnlyOnCycles(g, order)
  {
    forall i, j | 0 <= i < j < |order| && Edge(g, order[i], order[j])
      ensures Reaches(g, order[j], order[i])
    {
      assert order[j] !in order[..i];
    }
  }

  // without cycles, every dependency stands in front
  lemma DependenciesFirst(g: Graph, order: seq<Id>, i: nat, j: nat)
    requires BehindOnlyOnCycles(g, order) && Acyclic(g)
    requires i < |order| && j < |order| && Edge(g, order[i], order[j])
    ensures j < i
  {
    if i == j {
      ReachesItself(g, order[i]);
    }
  }

  function Elements(s: seq<Id>): set<Id> {
    set x | x in s
  }
}
