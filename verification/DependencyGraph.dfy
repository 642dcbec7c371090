/** Directed multigraphs of modules: paths, cycles, and the pigeonhole argument that finds one. */
module DependencyGraph {
  import opened Counting

  type ModuleId = nat

  /** The registered modules and, per module, the list of modules it depends on. Lists may repeat an
      entry, and neither end of an edge need be registered. */
  datatype Graph = Graph(modules: set<ModuleId>, deps: map<ModuleId, seq<ModuleId>>)

  function DepsOf(g: Graph, m: ModuleId): seq<ModuleId>
  {
    if m in g.deps then g.deps[m] else []
  }

  ghost predicate Dep(g: Graph, a: ModuleId, b: ModuleId) { b in DepsOf(g, a) }

  /** Both ends of every edge are registered. */
  ghost predicate Closed(g: Graph)
  {
    forall a, b | Dep(g, a, b) :: a in g.modules && b in g.modules
  }

  ghost predicate IsPath(g: Graph, p: seq<ModuleId>)
  {
    p != [] && forall i | 0 <= i < |p| - 1 :: Dep(g, p[i], p[i+1])
  }

  ghost predicate IsPathFromTo(g: Graph, p: seq<ModuleId>, a: ModuleId, b: ModuleId)
  {
    IsPath(g, p) && p[0] == a && p[|p|-1] == b
  }

  ghost predicate Reaches(g: Graph, a: ModuleId, b: ModuleId)
  {
    exists p :: IsPathFromTo(g, p, a, b)
  }

  ghost predicate OnCycle(g: Graph, x: ModuleId)
  {
    exists p :: |p| >= 2 && IsPathFromTo(g, p, x, x)
  }

  ghost predicate Acyclic(g: Graph)
  {
    forall x :: !OnCycle(g, x)
  }

  lemma {:induction false} ReachesRefl(g: Graph, a: ModuleId)
    ensures Reaches(g, a, a)
  {
    assert IsPathFromTo(g, [a], a, a);
  }

  lemma {:induction false} PathCons(g: Graph, a: ModuleId, p: seq<ModuleId>)
    requires IsPath(g, p) && Dep(g, a, p[0])
    ensures IsPath(g, [a] + p)
  {
    var q := [a] + p;
    forall i | 0 <= i < |q| - 1 ensures Dep(g, q[i], q[i+1]) {
      assert i > 0 ==> Dep(g, p[i-1], p[i]);
    }
  }

  lemma {:induction false} SubPath(g: Graph, p: seq<ModuleId>, i: nat, j: nat)
    requires IsPath(g, p) && i < j <= |p|
    ensures IsPathFromTo(g, p[i..j], p[i], p[j-1])
  {
    var q := p[i..j];
    forall k | 0 <= k < |q| - 1 ensures Dep(g, q[k], q[k+1]) {
      assert Dep(g, p[i+k], p[i+k+1]);
    }
  }

  lemma {:induction false} DepReaches(g: Graph, a: ModuleId, b: ModuleId, d: ModuleId)
    requires Dep(g, a, b) && Reaches(g, b, d)
    ensures Reaches(g, a, d)
    ensures a == d ==> OnCycle(g, a)
  {
    var p :| IsPathFromTo(g, p, b, d);
    PathCons(g, a, p);
    assert IsPathFromTo(g, [a] + p, a, d);
  }

  lemma {:induction false} ReachesAlong(g: Graph, p: seq<ModuleId>, d: ModuleId)
    requires IsPath(g, p) && Reaches(g, p[|p|-1], d)
    ensures Reaches(g, p[0], d)
  {
    if |p| > 1 {
      SubPath(g, p, 1, |p|);
      ReachesAlong(g, p[1..], d);
      assert Dep(g, p[0], p[1]);
      DepReaches(g, p[0], p[1], d);
    }
  }

  lemma {:induction false} CycleFirstStep(g: Graph, x: ModuleId)
    requires OnCycle(g, x)
    ensures exists d :: Dep(g, x, d) && Reaches(g, d, x)
  {
    var p :| |p| >= 2 && IsPathFromTo(g, p, x, x);
    SubPath(g, p, 1, |p|);
    assert IsPathFromTo(g, p[1..], p[1], x);
    assert Dep(g, x, p[1]);
  }

  // ----- Closed sets -----

  ghost predicate DepClosed(g: Graph, s: set<ModuleId>)
  {
    forall a, b | a in s && Dep(g, a, b) :: b in s
  }

  lemma {:induction false} PathStaysInside(g: Graph, p: seq<ModuleId>, s: set<ModuleId>)
    requires IsPath(g, p) && p[0] in s && DepClosed(g, s)
    ensures p[|p|-1] in s
  {
    if |p| > 1 {
      assert Dep(g, p[0], p[1]);
      SubPath(g, p, 1, |p|);
      PathStaysInside(g, p[1..], s);
    }
  }

  lemma {:induction false} ReachedStaysInside(g: Graph, s: set<ModuleId>, a: ModuleId, b: ModuleId)
    requires a in s && DepClosed(g, s) && Reaches(g, a, b)
    ensures b in s
  {
    var p :| IsPathFromTo(g, p, a, b);
    PathStaysInside(g, p, s);
  }

  // ----- Finding a cycle -----

  /** Every member of `s` has a predecessor in `s`. */
  ghost predicate Supported(g: Graph, s: set<ModuleId>)
  {
    forall x | x in s :: exists a :: a in s && Dep(g, a, x)
  }

  lemma {:induction false} Predecessor(g: Graph, s: set<ModuleId>, x: ModuleId) returns (a: ModuleId)
    requires x in s && Supported(g, s)
    ensures a in s && Dep(g, a, x)
  {
    hide Dep;
    a :| a in s && Dep(g, a, x);
  }

  lemma {:induction false} LongPathTo(g: Graph, s: set<ModuleId>, x: ModuleId, n: nat) returns (p: seq<ModuleId>)
    requires x in s && Supported(g, s)
    ensures |p| == n + 1 && IsPath(g, p) && p[n] == x
    ensures forall i | 0 <= i < |p| :: p[i] in s
  {
    hide Dep, Supported;
    if n == 0 {
      p := [x];
    } else {
      var q := LongPathTo(g, s, x, n - 1);
      var a := Predecessor(g, s, q[0]);
      PathCons(g, a, q);
      p := [a] + q;
    }
  }

  /** Walking backwards for ever inside a finite set closes a cycle, and the cycle leads to where the
      walk began. */
  lemma {:induction false} SupportedHasCycle(g: Graph, s: set<ModuleId>, x: ModuleId) returns (y: ModuleId)
    requires x in s && Supported(g, s)
    ensures y in s && OnCycle(g, y) && Reaches(g, y, x)
  {
    hide Dep, IsPath, Supported;
    var p := LongPathTo(g, s, x, |s|);
    Pigeonhole(p, s);
    var i, j :| 0 <= i < j < |p| && p[i] == p[j];
    y := p[i];
    SubPath(g, p, i, j + 1);
    SubPath(g, p, i, |p|);
    assert |p[i..j+1]| >= 2;
  }

  // ----- Order -----

  ghost predicate Distinct(s: seq<ModuleId>)
  {
    forall i, j | 0 <= i < j < |s| :: s[i] != s[j]
  }

  /** Whoever depends on an entry stands before it. */
  ghost predicate DependentsFirst(g: Graph, s: seq<ModuleId>)
  {
    forall a, j | 0 <= j < |s| && Dep(g, a, s[j]) :: exists i :: 0 <= i < j && s[i] == a
  }

  lemma {:induction false} PathAscends(g: Graph, s: seq<ModuleId>, p: seq<ModuleId>, j: nat)
    requires Distinct(s) && DependentsFirst(g, s) && IsPath(g, p)
    requires j < |s| && p[|p|-1] == s[j]
    ensures exists i :: 0 <= i <= j - (|p| - 1) && s[i] == p[0]
    decreases |p|
  {
    if |p| > 1 {
      var a := p[|p|-2];
      assert Dep(g, a, p[|p|-1]);
      var i :| 0 <= i < j && s[i] == a;
      SubPath(g, p, 0, |p| - 1);
      assert p[..|p|-1][|p|-2] == a;
      PathAscends(g, s, p[..|p|-1], i);
    }
  }

  lemma {:induction false} OrderedHasNoCycle(g: Graph, s: seq<ModuleId>, x: ModuleId)
    requires Distinct(s) && DependentsFirst(g, s) && x in s
    ensures !OnCycle(g, x)
  {
    var j :| 0 <= j < |s| && s[j] == x;
    if OnCycle(g, x) {
      var p :| |p| >= 2 && IsPathFromTo(g, p, x, x);
      PathAscends(g, s, p, j);
      assert false;
    }
  }

  lemma {:induction false} AncestorsAreListed(g: Graph, s: seq<ModuleId>, a: ModuleId, x: ModuleId)
    requires Distinct(s) && DependentsFirst(g, s) && x in s && Reaches(g, a, x)
    ensures a in s
  {
    var j :| 0 <= j < |s| && s[j] == x;
    var p :| IsPathFromTo(g, p, a, x);
    PathAscends(g, s, p, j);
  }
}
