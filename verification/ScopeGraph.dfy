/** Scope implication: the search for an implied scope and the check for cycles (src/scope-hierarchy.ts). */
module ScopeGraph {
  import opened Prelude

  /** The scopes each scope implies directly, in the order they were listed. */
  type Graph = map<string, seq<string>>

  function Successors(graph: Graph, scope: string): seq<string> {
    if scope in graph then graph[scope] else []
  }

  predicate Edge(graph: Graph, a: string, b: string) {
    b in Successors(graph, a)
  }

  ghost predicate IsPath(graph: Graph, path: seq<string>) {
    path != [] && forall i :: 0 <= i < |path| - 1 ==> Edge(graph, path[i], path[i + 1])
  }

  ghost predicate Connects(graph: Graph, path: seq<string>, a: string, b: string) {
    IsPath(graph, path) && path[0] == a && path[|path| - 1] == b
  }

  /** `b` is `a` itself or is implied by it through some chain of direct implications. */
  ghost predicate Reachable(graph: Graph, a: string, b: string) {
    exists path :: Connects(graph, path, a, b)
  }

  ghost predicate ReachableFrom(graph: Graph, granted: seq<string>, b: string) {
    exists a :: a in granted && Reachable(graph, a, b)
  }

  ghost predicate HasCycle(graph: Graph) {
    exists path, a :: |path| > 1 && Connects(graph, path, a, a)
  }

  // ----------------------------------------------------------------------- paths

  lemma ReachableSelf(graph: Graph, a: string)
    ensures Reachable(graph, a, a)
  {
    assert Connects(graph, [a], a, a);
  }

  lemma ReachableStep(graph: Graph, a: string, b: string, c: string)
    requires Reachable(graph, a, b) && Edge(graph, b, c)
    ensures Reachable(graph, a, c)
  {
    var path :| Connects(graph, path, a, b);
    assert Connects(graph, path + [c], a, c);
  }

  lemma JoinPaths(graph: Graph, p: seq<string>, q: seq<string>, a: string, b: string, c: string)
    requires Connects(graph, p, a, b) && Connects(graph, q, b, c)
    ensures Connects(graph, p + q[1..], a, c)
  {
    var r := p + q[1..];
    forall i | 0 <= i < |r| - 1 ensures Edge(graph, r[i], r[i + 1]) {
      if i < |p| - 1 {
        assert Edge(graph, p[i], p[i + 1]);
      } else {
        assert Edge(graph, q[i - |p| + 1], q[i - |p| + 2]);
      }
    }
  }

  lemma ReachableTransitive(graph: Graph, a: string, b: string, c: string)
    requires Reachable(graph, a, b) && Reachable(graph, b, c)
    ensures Reachable(graph, a, c)
  {
    var p :| Connects(graph, p, a, b);
    var q :| Connects(graph, q, b, c);
    JoinPaths(graph, p, q, a, b, c);
  }

  /** In a graph without cycles no two scopes imply each other. */
  lemma ReachableAntisymmetric(graph: Graph, a: string, b: string)
    requires !HasCycle(graph) && Reachable(graph, a, b) && Reachable(graph, b, a)
    ensures a == b
  {
    if a != b {
      var p :| Connects(graph, p, a, b);
      var q :| Connects(graph, q, b, a);
      assert |p| > 1;
      JoinPaths(graph, p, q, a, b, a);
    }
  }

  ghost predicate ClosedUnder(graph: Graph, scopes: set<string>) {
    forall a, b :: a in scopes && Edge(graph, a, b) ==> b in scopes
  }

  lemma {:induction false} ClosedHoldsPaths(graph: Graph, scopes: set<string>, path: seq<string>)
    requires ClosedUnder(graph, scopes) && IsPath(graph, path) && path[0] in scopes
    ensures path[|path| - 1] in scopes
  {
    if |path| > 1 {
      assert Edge(graph, path[0], path[1]);
      forall i | 0 <= i < |path[1..]| - 1 ensures Edge(graph, path[1..][i], path[1..][i + 1]) {
        assert Edge(graph, path[i + 1], path[i + 2]);
      }
      ClosedHoldsPaths(graph, scopes, path[1..]);
    }
  }

  // -------------------------------------------------------------- the search

  /** Every scope a search can meet. */
  function Scopes(graph: Graph, granted: seq<string>): set<string> {
    (set s | s in granted) + graph.Keys + (set a, i | a in graph && 0 <= i < |graph[a]| :: graph[a][i])
  }

  lemma SuccessorsAreScopes(graph: Graph, granted: seq<string>, a: string, b: string)
    requires Edge(graph, a, b)
    ensures b in Scopes(graph, granted)
  {
    var i :| 0 <= i < |graph[a]| && graph[a][i] == b;
  }

  ghost predicate SearchInv(graph: Graph, granted: seq<string>, required: string, visited: set<string>, pending: seq<string>) {
    && visited <= Scopes(graph, granted)
    && (forall s :: s in pending ==> s in Scopes(graph, granted) && ReachableFrom(graph, granted, s))
    && (forall s :: s in granted ==> s in visited || s in pending)
    && (forall a, b :: a in visited && Edge(graph, a, b) ==> b in visited || b in pending)
    && required !in visited
  }

  /** None models a missing or unvalidated policy. */
  method HierarchyImplies(policy: Option<Graph>, grantedScopes: seq<string>, required: string) returns (implied: bool)
    ensures implied <==> policy.Some? && ReachableFrom(policy.value, grantedScopes, required)
  {
    if policy.None? { return false; }
    var graph := policy.value;
    var visited: set<string>, pending := {}, grantedScopes;
    SearchStart(graph, grantedScopes, required);
    hide SearchInv, Scopes, ReachableFrom, Reachable, Successors, Edge;
    while pending != []
      invariant SearchInv(graph, grantedScopes, required, visited, pending)
      decreases |Scopes(graph, grantedScopes) - visited|, |pending|
    {
      var current := pending[|pending| - 1];
      SearchPop(graph, grantedScopes, required, visited, pending);
      pending := pending[..|pending| - 1];
      if current in visited { continue; }
      if current == required { return true; }
      SearchStep(graph, grantedScopes, required, visited, pending, current);
      visited := visited + {current};
      pending := pending + Successors(graph, current);
    }
    SearchEnd(graph, grantedScopes, required, visited);
    return false;
  }

  lemma SearchStart(graph: Graph, granted: seq<string>, required: string)
    ensures SearchInv(graph, granted, required, {}, granted)
  {
    forall s | s in granted ensures ReachableFrom(graph, granted, s) { ReachableSelf(graph, s); }
  }

  lemma SearchPop(graph: Graph, granted: seq<string>, required: string, visited: set<string>, pending: seq<string>)
    requires pending != [] && SearchInv(graph, granted, required, visited, pending)
    ensures var current, rest := pending[|pending| - 1], pending[..|pending| - 1];
      && ReachableFrom(graph, granted, current)
      && SearchInv(graph, granted, required, visited, rest + [current])
      && (current in visited ==> SearchInv(graph, granted, required, visited, rest))
  {
    hide Scopes, ReachableFrom;
    var current, rest := pending[|pending| - 1], pending[..|pending| - 1];
    assert pending == rest + [current] && current in pending;
    assert forall s :: s in rest + [current] <==> s in rest || s == current;
  }

  lemma SearchStep(graph: Graph, granted: seq<string>, required: string, visited: set<string>, pending: seq<string>, current: string)
    requires SearchInv(graph, granted, required, visited, pending + [current]) && current !in visited && current != required
    ensures SearchInv(graph, granted, required, visited + {current}, pending + Successors(graph, current))
    ensures |Scopes(graph, granted) - (visited + {current})| < |Scopes(graph, granted) - visited|
  {
    hide Successors, Scopes;
    assert current in pending + [current];
    var start :| start in granted && Reachable(graph, start, current);
    forall b | Edge(graph, current, b) ensures b in Scopes(graph, granted) && ReachableFrom(graph, granted, b) {
      SuccessorsAreScopes(graph, granted, current, b);
      ReachableStep(graph, start, current, b);
    }
    var rest := Scopes(graph, granted) - visited;
    assert current in rest && Scopes(graph, granted) - (visited + {current}) == rest - {current};
    var next := pending + Successors(graph, current);
    forall s | s in pending ensures s in pending + [current] && s in next { }
    assert forall s :: s in pending + [current] ==> s in pending || s == current;
  }

  lemma SearchEnd(graph: Graph, granted: seq<string>, required: string, visited: set<string>)
    requires SearchInv(graph, granted, required, visited, [])
    ensures !ReachableFrom(graph, granted, required)
  {
    forall a, path | a in granted && Connects(graph, path, a, required) ensures false {
      ClosedHoldsPaths(graph, visited, path);
    }
  }

  /** Granting more scopes never loses an implied one. */
  lemma ImpliedIsMonotone(graph: Graph, granted: seq<string>, more: seq<string>, required: string)
    requires forall s :: s in granted ==> ReachableFrom(graph, more, s)
    requires ReachableFrom(graph, granted, required)
    ensures ReachableFrom(graph, more, required)
  {
    var s :| s in granted && Reachable(graph, s, required);
    var m :| m in more && Reachable(graph, m, s);
    ReachableTransitive(graph, m, s, required);
  }

  // ------------------------------------------------------------- the cycle check

  /** The scopes are listed so that each comes after all that it implies. */
  ghost predicate Finished(graph: Graph, order: seq<string>) {
    forall i, b :: 0 <= i < |order| && Edge(graph, order[i], b) ==> b in order[..i]
  }

  /** The state of one check. */
  class CycleCheck {
    const graph: Graph
    var visiting: set<string>
    var visited: set<string>
    ghost var stack: seq<string>
    ghost var order: seq<string>

    ghost predicate Valid()
      reads this
    {
      Depth(graph, visiting, visited, stack, order)
    }

    constructor (graph: Graph)
      ensures Valid() && this.graph == graph && stack == [] && order == []
    {
      this.graph := graph;
      visiting, visited, stack, order := {}, {}, [], [];
    }

    /** `visit`; false models the thrown error. */
    method Visit(scope: string) returns (ok: bool)
      requires Valid() && scope in Scopes(graph, [])
      requires Follows(graph, stack, scope)
      modifies this
      ensures !ok ==> HasCycle(graph)
      ensures ok ==> Valid() && stack == old(stack) && visiting == old(visiting) && scope in visited && old(visited) <= visited
      decreases |Scopes(graph, []) - visiting - visited|
    {
      hide Depth, Scopes, HasCycle, Successors, Edge, AllIn, Follows;
      if scope in visiting {
        FoundCycle(graph, visiting, visited, stack, order, scope);
        return false;
      }
      if scope in visited { return true; }
      NothingIn(visited);
      ghost var path, outer, before := stack, visiting, visited;
      Enter(graph, visiting, visited, stack, order, scope);
      visiting := visiting + {scope};
      stack := stack + [scope];
      var implied := Successors(graph, scope);
      for i := 0 to |implied|
        invariant Valid() && stack == path + [scope] && before <= visited && visiting == outer + {scope}
        invariant AllIn(implied[..i], visited)
      {
        assert implied[..i + 1] == implied[..i] + [implied[i]];
        SuccessorFollows(graph, path, scope, implied[i]);
        Smaller(Scopes(graph, []), outer, before, visited, scope);
        ghost var mid := visited;
        var inner := Visit(implied[i]);
        if !inner { return false; }
        AllInMore(implied[..i], implied[i], mid, visited);
      }
      assert implied[..|implied|] == implied;
      Leave(graph, visiting, visited, path, order, scope);
      assert visiting - {scope} == outer;
      visiting := visiting - {scope};
      visited := visited + {scope};
      stack := path;
      order := order + [scope];
      return true;
    }

    /** Visits every scope that implies something, in any order. */
    method AssertAcyclic(keys: seq<string>) returns (ok: bool)
      requires Valid() && stack == [] && (forall s :: s in keys <==> s in graph)
      modifies this
      ensures ok <==> !HasCycle(graph)
    {
      for i := 0 to |keys|
        invariant Valid() && stack == []
        invariant forall j :: 0 <= j < i ==> keys[j] in visited
      {
        ok := Visit(keys[i]);
        if !ok { return; }
      }
      FinishedIsAcyclic(graph, order);
      return true;
    }
  }

  /** `stack` is the path of the visits under way, `order` the scopes in the order they were finished. */
  ghost predicate Depth(graph: Graph, visiting: set<string>, visited: set<string>, stack: seq<string>, order: seq<string>) {
    && visiting == (set s | s in stack)
    && visited == (set s | s in order)
    && visiting !! visited
    && (forall i, j :: 0 <= i < j < |stack| ==> stack[i] != stack[j])
    && (stack != [] ==> IsPath(graph, stack))
    && Finished(graph, order)
  }

  ghost predicate AllIn(xs: seq<string>, scopes: set<string>) {
    forall x :: x in xs ==> x in scopes
  }

  lemma NothingIn(scopes: set<string>)
    ensures AllIn([], scopes)
  {
  }

  lemma AllInMore(xs: seq<string>, x: string, scopes: set<string>, more: set<string>)
    requires AllIn(xs, scopes) && scopes <= more && x in more
    ensures AllIn(xs + [x], more)
  {
  }

  /** The measure of the recursion: visits under way and finished leave fewer scopes to enter. */
  lemma Smaller(all: set<string>, visiting: set<string>, before: set<string>, visited: set<string>, scope: string)
    requires scope in all && scope !in visiting && scope !in before && before <= visited
    ensures |all - (visiting + {scope}) - visited| < |all - visiting - before|
  {
    var a, b := all - (visiting + {scope}) - visited, all - visiting - before;
    assert a <= b - {scope} && scope in b;
    assert b == (a + {scope}) + (b - a - {scope});
  }

  /** The innermost visit under way implies `scope` directly. */
  predicate Follows(graph: Graph, stack: seq<string>, scope: string) {
    stack != [] ==> Edge(graph, stack[|stack| - 1], scope)
  }

  lemma SuccessorFollows(graph: Graph, path: seq<string>, scope: string, implied: string)
    requires implied in Successors(graph, scope)
    ensures Follows(graph, path + [scope], implied) && implied in Scopes(graph, [])
  {
    SuccessorsAreScopes(graph, [], scope, implied);
  }

  lemma Enter(graph: Graph, visiting: set<string>, visited: set<string>, stack: seq<string>, order: seq<string>, scope: string)
    requires Depth(graph, visiting, visited, stack, order) && scope !in visiting && scope !in visited
    requires Follows(graph, stack, scope)
    ensures Depth(graph, visiting + {scope}, visited, stack + [scope], order)
  {
  }

  lemma Leave(graph: Graph, visiting: set<string>, visited: set<string>, path: seq<string>, order: seq<string>, scope: string)
    requires Depth(graph, visiting, visited, path + [scope], order)
    requires AllIn(Successors(graph, scope), visited)
    ensures Depth(graph, visiting - {scope}, visited + {scope}, path, order + [scope])
  {
    var stack, order' := path + [scope], order + [scope];
    if path != [] {
      forall i | 0 <= i < |path| - 1 ensures Edge(graph, path[i], path[i + 1]) {
        assert Edge(graph, stack[i], stack[i + 1]);
      }
    }
    forall i, j | 0 <= i < j < |path| ensures path[i] != path[j] { assert stack[i] == path[i] && stack[j] == path[j]; }
    assert scope in stack && forall s :: s in stack <==> s in path || s == scope;
    assert stack[|path|] == scope;
    forall i | 0 <= i < |path| ensures path[i] != scope && path[i] in stack { assert stack[i] == path[i]; }
    assert forall s :: s in order' <==> s in order || s == scope;
    forall i, b | 0 <= i < |order'| && Edge(graph, order'[i], b) ensures b in order'[..i] {
      if i < |order| {
        assert order'[..i] == order[..i];
      } else {
        assert order'[..i] == order;
      }
    }
  }

  lemma FoundCycle(graph: Graph, visiting: set<string>, visited: set<string>, stack: seq<string>, order: seq<string>, scope: string)
    requires Depth(graph, visiting, visited, stack, order) && scope in visiting
    requires Follows(graph, stack, scope)
    ensures HasCycle(graph)
  {
    var i :| 0 <= i < |stack| && stack[i] == scope;
    var cycle := stack[i..] + [scope];
    forall j | 0 <= j < |cycle| - 1 ensures Edge(graph, cycle[j], cycle[j + 1]) {
      if j < |stack| - i - 1 { assert Edge(graph, stack[i + j], stack[i + j + 1]); }
    }
    assert Connects(graph, cycle, scope, scope);
  }

  /** Along a path the finishing positions go down. */
  lemma {:induction false} PathGoesBack(graph: Graph, order: seq<string>, path: seq<string>, n: nat)
    requires Finished(graph, order) && IsPath(graph, path) && n <= |order| && path[0] in order[..n]
    ensures |path| > 1 ==> exists i :: 0 <= i < n && order[i] == path[0] && path[|path| - 1] in order[..i]
    ensures path[|path| - 1] in order[..n]
  {
    if |path| > 1 {
      var i :| 0 <= i < n && order[i] == path[0];
      assert Edge(graph, path[0], path[1]);
      var rest := path[1..];
      forall j | 0 <= j < |rest| - 1 ensures Edge(graph, rest[j], rest[j + 1]) {
        assert Edge(graph, path[j + 1], path[j + 2]);
      }
      PathGoesBack(graph, order, rest, i);
    }
  }

  /** A cycle would lead back before its own first position. */
  lemma {:induction false} NoCycleBelow(graph: Graph, order: seq<string>, path: seq<string>, n: nat)
    requires Finished(graph, order) && IsPath(graph, path) && |path| > 1 && path[0] == path[|path| - 1]
    requires n <= |order|
    ensures path[0] !in order[..n]
  {
    if path[0] in order[..n] {
      PathGoesBack(graph, order, path, n);
      var i :| 0 <= i < n && order[i] == path[0] && path[|path| - 1] in order[..i];
      NoCycleBelow(graph, order, path, i);
    }
  }

  lemma FinishedIsAcyclic(graph: Graph, order: seq<string>)
    requires Finished(graph, order) && forall s :: s in graph ==> s in order
    ensures !HasCycle(graph)
  {
    forall path, a | |path| > 1 && Connects(graph, path, a, a) ensures false {
      assert Edge(graph, path[0], path[1]);
      assert order[..|order|] == order;
      NoCycleBelow(graph, order, path, |order|);
    }
  }

  /** Among accepted policies implication is a partial order. */
  lemma ImplicationIsPartialOrder(graph: Graph, a: string, b: string, c: string)
    requires !HasCycle(graph)
    ensures Reachable(graph, a, a)
    ensures Reachable(graph, a, b) && Reachable(graph, b, c) ==> Reachable(graph, a, c)
    ensures Reachable(graph, a, b) && Reachable(graph, b, a) ==> a == b
  {
    ReachableSelf(graph, a);
    if Reachable(graph, a, b) && Reachable(graph, b, c) { ReachableTransitive(graph, a, b, c); }
    if Reachable(graph, a, b) && Reachable(graph, b, a) { ReachableAntisymmetric(graph, a, b); }
  }
}
