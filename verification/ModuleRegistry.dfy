/** The module registry: registration, dependency edges, depth-first cycle detection and Kahn's
    ordering. Hash maps are visited in an arbitrary order, picked anew at every step. */
module ModuleRegistry {
  import opened Wrappers
  import opened Diag
  import opened DependencyGraph

  datatype Import = Import(importedName: string, segments: seq<string>, span: Span)

  datatype ModuleInfo = ModuleInfo(id: ModuleId, name: string, path: string, imports: seq<Import>)

  // ----- What the depth-first search reports -----

  /** The first `k` entries, read backwards, are a cycle through the first one. */
  ghost predicate CyclePrefix(g: Graph, list: seq<ModuleId>, k: nat)
  {
    && 1 <= k <= |list|
    && Dep(g, list[0], list[k-1])
    && forall i | 0 <= i < k - 1 :: Dep(g, list[i+1], list[i])
  }

  /** The entries after the first `k` are a path that leads to the cycle, read backwards. */
  ghost predicate TailPath(g: Graph, list: seq<ModuleId>, k: nat)
  {
    1 <= k <= |list| && forall i | k <= i < |list| :: Dep(g, list[i], if i == k then list[0] else list[i-1])
  }

  ghost predicate CycleReport(g: Graph, list: seq<ModuleId>)
  {
    exists k: nat :: CyclePrefix(g, list, k) && TailPath(g, list, k)
  }

  /** A chain from the current module back down to the repeated one, not closed yet. */
  ghost predicate OpenChain(g: Graph, list: seq<ModuleId>, m: ModuleId)
  {
    list != [] && list[|list|-1] == m && forall i | 0 <= i < |list| - 1 :: Dep(g, list[i+1], list[i])
  }

  ghost predicate ClosedChain(g: Graph, list: seq<ModuleId>, k: nat, m: ModuleId)
  {
    CyclePrefix(g, list, k) && TailPath(g, list, k) && m == if k == |list| then list[0] else list[|list|-1]
  }

  /** What a failed search from `m` hands to the caller whose search stack is `visiting`. */
  ghost predicate FailedAt(g: Graph, list: seq<ModuleId>, visiting: set<ModuleId>, m: ModuleId)
  {
    && list != []
    && Reaches(g, m, list[0])
    && if list[0] in visiting then OpenChain(g, list, m) else exists k: nat :: ClosedChain(g, list, k, m)
  }

  lemma {:induction false} FailureClimbs(
      g: Graph, list: seq<ModuleId>, visiting: set<ModuleId>, m: ModuleId, dep: ModuleId)
    requires m !in visiting && Dep(g, m, dep) && FailedAt(g, list, visiting + {m}, dep)
    ensures FailedAt(g, if list[0] == m then list else list + [m], visiting, m)
  {
    hide Dep;
    DepReaches(g, m, dep, list[0]);
    if list[0] == m {
      ReachesRefl(g, m);
      assert ClosedChain(g, list, |list|, m);
    } else if list[0] in visiting {
      assert OpenChain(g, list + [m], m);
    } else {
      var k: nat :| ClosedChain(g, list, k, dep);
      var longer := list + [m];
      forall i | k <= i < |longer| ensures Dep(g, longer[i], if i == k then longer[0] else longer[i-1]) {
        assert i < |list| ==> Dep(g, list[i], if i == k then list[0] else list[i-1]);
      }
      forall i | 0 <= i < k - 1 ensures Dep(g, longer[i+1], longer[i]) {
        assert Dep(g, list[i+1], list[i]);
      }
      assert ClosedChain(g, longer, k, m);
    }
  }

  lemma {:induction false} ReportShowsCycle(g: Graph, list: seq<ModuleId>, k: nat)
    requires CyclePrefix(g, list, k)
    ensures OnCycle(g, list[0])
  {
    hide Dep;
    BackwardsReaches(g, list, k - 1);
    DepReaches(g, list[0], list[k-1], list[0]);
  }

  lemma {:induction false} BackwardsReaches(g: Graph, list: seq<ModuleId>, i: nat)
    requires i < |list| && forall j | 0 <= j < i :: Dep(g, list[j+1], list[j])
    ensures Reaches(g, list[i], list[0])
  {
    hide Dep;
    ReachesRefl(g, list[0]);
    if i > 0 {
      BackwardsReaches(g, list, i - 1);
      DepReaches(g, list[i], list[i-1], list[0]);
    }
  }

  /** Fully explored: closed under dependencies and free of cycles. */
  ghost predicate Explored(g: Graph, visited: set<ModuleId>)
  {
    DepClosed(g, visited) && forall x | x in visited :: !OnCycle(g, x)
  }

  lemma {:induction false} ExploreOneMore(g: Graph, visited: set<ModuleId>, m: ModuleId)
    requires Explored(g, visited) && m !in visited
    requires forall d | Dep(g, m, d) :: d in visited
    ensures Explored(g, visited + {m})
  {
    hide Dep, OnCycle;
    if OnCycle(g, m) {
      CycleFirstStep(g, m);
      var d :| Dep(g, m, d) && Reaches(g, d, m);
      ReachedStaysInside(g, visited, d, m);
      assert false;
    }
  }

  /** Everything a search can visit. */
  function Nodes(g: Graph): set<ModuleId>
  {
    g.modules + g.deps.Keys + set m, d | m in g.deps && d in g.deps[m] :: d
  }

  lemma {:induction false} DepIsNode(g: Graph, a: ModuleId, b: ModuleId)
    requires Dep(g, a, b)
    ensures a in Nodes(g) && b in Nodes(g)
  {
  }

  // ----- What Kahn's algorithm counts -----

  /** One occurrence of a dependency: entry `index` in the list of `from`. */
  datatype Slot = Slot(from: ModuleId, index: nat)

  ghost predicate IsSlot(g: Graph, s: Slot) { s.index < |DepsOf(g, s.from)| }

  ghost function Target(g: Graph, s: Slot): ModuleId
    requires IsSlot(g, s)
  {
    DepsOf(g, s.from)[s.index]
  }

  ghost predicate AreSlots(g: Graph, slots: set<Slot>) { forall s | s in slots :: IsSlot(g, s) }

  ghost function Into(g: Graph, slots: set<Slot>, x: ModuleId): set<Slot>
    requires AreSlots(g, slots)
  {
    set s | s in slots && Target(g, s) == x
  }

  type Degrees = map<ModuleId, nat>

  /** The degrees count the given slots, for the given keys. */
  ghost predicate Counts(g: Graph, degrees: Degrees, keys: set<ModuleId>, slots: set<Slot>)
  {
    && AreSlots(g, slots)
    && degrees.Keys == keys
    && (forall s | s in slots :: Target(g, s) in keys)
    && forall x | x in keys :: degrees[x] == |Into(g, slots, x)|
  }

  lemma {:induction false} IntoMore(g: Graph, slots: set<Slot>, s: Slot, x: ModuleId)
    requires AreSlots(g, slots) && IsSlot(g, s)
    ensures Into(g, slots + {s}, x) == if x == Target(g, s) then Into(g, slots, x) + {s} else Into(g, slots, x)
  {
    hide Target, IsSlot;
  }

  lemma {:induction false} IntoLess(g: Graph, slots: set<Slot>, s: Slot, x: ModuleId)
    requires AreSlots(g, slots) && s in slots
    ensures Into(g, slots - {s}, x) == if x == Target(g, s) then Into(g, slots, x) - {s} else Into(g, slots, x)
  {
    hide Target, IsSlot;
  }

  lemma {:induction false} CountOneMore(g: Graph, degrees: Degrees, keys: set<ModuleId>, slots: set<Slot>, s: Slot)
    requires Counts(g, degrees, keys, slots) && s !in slots && IsSlot(g, s)
    ensures var t := Target(g, s);
            Counts(g, degrees[t := (if t in degrees then degrees[t] else 0) + 1], keys + {t}, slots + {s})
  {
    hide Target, IsSlot;
    var t := Target(g, s);
    assert t !in keys ==> Into(g, slots, t) == {};
    assert s !in Into(g, slots, t);
    assert AreSlots(g, slots + {s});
    hide Into, AreSlots;
    forall x | x in keys + {t} ensures |Into(g, slots + {s}, x)| == |Into(g, slots, x)| + if x == t then 1 else 0 {
      IntoMore(g, slots, s, x);
    }
  }

  lemma {:induction false} CountOneLess(g: Graph, degrees: Degrees, keys: set<ModuleId>, slots: set<Slot>, s: Slot)
    requires Counts(g, degrees, keys, slots) && s in slots
    ensures var t := Target(g, s);
            t in degrees && degrees[t] > 0 && Counts(g, degrees[t := degrees[t] - 1], keys, slots - {s})
  {
    hide Target, IsSlot;
    var t := Target(g, s);
    assert s in Into(g, slots, t);
    hide Into;
    forall x ensures Into(g, slots - {s}, x) == if x == t then Into(g, slots, x) - {s} else Into(g, slots, x) {
      IntoLess(g, slots, s, x);
    }
  }

  ghost function SlotsOf(g: Graph, sources: set<ModuleId>): set<Slot>
  {
    set m, i | m in sources && 0 <= i < |DepsOf(g, m)| :: Slot(m, i)
  }

  /** The slots of `m` from position `i` on. */
  ghost function SlotsFrom(g: Graph, m: ModuleId, i: nat): set<Slot>
  {
    set j | i <= j < |DepsOf(g, m)| :: Slot(m, j)
  }

  /** What Kahn's algorithm counts: the modules, and whatever is depended on. */
  function Counted(g: Graph): set<ModuleId>
  {
    g.modules + set m, d | m in g.deps && d in g.deps[m] :: d
  }

  lemma {:induction false} TargetIsCounted(g: Graph, a: ModuleId, b: ModuleId)
    requires Dep(g, a, b)
    ensures b in Counted(g)
  {
  }

  /** Everything Kahn's algorithm emits: what has no cycle and no uncounted module above it. */
  ghost predicate Emitted(g: Graph, x: ModuleId)
  {
    forall a | Reaches(g, a, x) :: a in Counted(g) && !OnCycle(g, a)
  }

  ghost function EmittedSet(g: Graph): set<ModuleId>
  {
    set x | x in Counted(g) && Emitted(g, x)
  }

  /** A compilation order: every module once, dependencies before their dependents. */
  ghost predicate CompilationOrder(g: Graph, s: seq<ModuleId>)
  {
    && Distinct(s)
    && forall i, j | 0 <= i < |s| && 0 <= j < |s| && Dep(g, s[i], s[j]) :: j < i
  }

  // ----- Facts about a finished run of Kahn's algorithm -----

  function Listed(s: seq<ModuleId>): set<ModuleId> { set x | x in s }

  /** The state when the queue is empty: everything with degree zero has been emitted, and every
      slot that is still counted comes from something that has not been emitted. */
  ghost predicate Drained(g: Graph, degrees: Degrees, sorted: seq<ModuleId>)
  {
    && Distinct(sorted) && DependentsFirst(g, sorted)
    && (forall x | x in sorted :: x in Counted(g))
    && Counts(g, degrees, Counted(g), SlotsOf(g, g.deps.Keys - Listed(sorted)))
    && forall x | x in Counted(g) && degrees[x] == 0 :: x in sorted
  }

  lemma {:induction false} LeftoverHasPredecessor(g: Graph, degrees: Degrees, sorted: seq<ModuleId>, x: ModuleId)
    requires Drained(g, degrees, sorted) && x in Counted(g) && x !in sorted
    ensures exists a :: Dep(g, a, x) && a !in sorted
  {
    var slots := SlotsOf(g, g.deps.Keys - Listed(sorted));
    assert |Into(g, slots, x)| > 0;
    var s :| s in Into(g, slots, x);
    assert Dep(g, s.from, x);
  }

  lemma {:induction false} LeftoverNotEmitted(g: Graph, degrees: Degrees, sorted: seq<ModuleId>, x: ModuleId)
    requires Drained(g, degrees, sorted) && x in Counted(g) && x !in sorted
    ensures !Emitted(g, x)
  {
    hide Drained, Dep, OnCycle, Counted;
    if Emitted(g, x) {
      var above := set a | a in Counted(g) && a !in sorted && Reaches(g, a, x);
      ReachesRefl(g, x);
      forall y | y in above ensures exists a :: a in above && Dep(g, a, y) {
        LeftoverHasPredecessor(g, degrees, sorted, y);
        var a :| Dep(g, a, y) && a !in sorted;
        DepReaches(g, a, y, x);
        assert a in above;
      }
      var y := SupportedHasCycle(g, above, x);
      assert false;
    }
  }

  lemma {:induction false} SortedIsEmitted(g: Graph, sorted: seq<ModuleId>, x: ModuleId)
    requires Distinct(sorted) && DependentsFirst(g, sorted) && x in sorted
    requires forall y | y in sorted :: y in Counted(g)
    ensures Emitted(g, x)
  {
    hide Dep, OnCycle, Counted, DependentsFirst;
    forall a | Reaches(g, a, x) ensures a in Counted(g) && !OnCycle(g, a) {
      AncestorsAreListed(g, sorted, a, x);
      OrderedHasNoCycle(g, sorted, a);
    }
  }

  lemma {:induction false} DrainedIsEmittedSet(g: Graph, degrees: Degrees, sorted: seq<ModuleId>)
    requires Drained(g, degrees, sorted)
    ensures Listed(sorted) == EmittedSet(g)
  {
    hide Emitted, Counts, Counted;
    forall x | x in Counted(g) ensures x in sorted <==> Emitted(g, x) {
      if x in sorted {
        SortedIsEmitted(g, sorted, x);
      } else {
        LeftoverNotEmitted(g, degrees, sorted, x);
      }
    }
  }

  lemma {:induction false} DistinctCount(s: seq<ModuleId>)
    requires Distinct(s)
    ensures |Listed(s)| == |s|
  {
    if s == [] {
      assert Listed(s) == {};
    } else {
      var front, last := s[..|s|-1], s[|s|-1];
      DistinctCount(front);
      assert s == front + [last];
      forall i | 0 <= i < |front| ensures front[i] != last {
        assert s[i] != s[|s|-1];
      }
      assert Listed(s) == Listed(front) + {last};
    }
  }

  function Reversed(s: seq<ModuleId>): (r: seq<ModuleId>)
    ensures |r| == |s| && forall i | 0 <= i < |s| :: r[i] == s[|s|-1-i]
  {
    if s == [] then [] else [s[|s|-1]] + Reversed(s[..|s|-1])
  }

  lemma {:induction false} ReversedIsOrder(g: Graph, s: seq<ModuleId>)
    requires Distinct(s) && DependentsFirst(g, s)
    ensures CompilationOrder(g, Reversed(s))
    ensures forall x :: x in Reversed(s) <==> x in s
  {
    hide Dep;
    var r := Reversed(s);
    assert Distinct(r);
    forall i, j | 0 <= i < |r| && 0 <= j < |r| && Dep(g, r[i], r[j]) ensures j < i {
      assert s[|s|-1-j] == r[j];
      var k :| 0 <= k < |s|-1-j && s[k] == r[i];
      assert s[|s|-1-i] == r[i];
    }
    forall x | x in s ensures x in r {
      var i :| 0 <= i < |s| && s[i] == x;
      assert r[|s|-1-i] == x;
    }
  }

  // ----- Steps of the two algorithms -----

  lemma {:induction false} EdgeAdded(g: Graph, h: Graph, from: ModuleId, to: ModuleId)
    requires h == g.(deps := g.deps[from := DepsOf(g, from) + [to]])
    ensures Closed(h) <==> Closed(g) && from in g.modules && to in g.modules
  {
    forall a, b ensures Dep(h, a, b) <==> Dep(g, a, b) || (a == from && b == to) {
    }
    hide Dep;
    assert Dep(h, from, to);
    if Closed(h) {
      forall a, b | Dep(g, a, b) ensures a in g.modules && b in g.modules {
        assert Dep(h, a, b);
      }
    }
  }

  lemma {:induction false} EdgelessAdded(g: Graph, h: Graph, id: ModuleId)
    requires h == Graph(g.modules + {id}, g.deps[id := []])
    ensures Closed(g) ==> Closed(h)
  {
    forall a, b | Dep(h, a, b) ensures Dep(g, a, b) {
    }
  }

  lemma {:induction false} ImmediateFailure(g: Graph, visiting: set<ModuleId>, m: ModuleId)
    requires m in visiting
    ensures FailedAt(g, [m], visiting, m)
  {
    ReachesRefl(g, m);
  }

  lemma {:induction false} FailureNonEmpty(g: Graph, list: seq<ModuleId>, visiting: set<ModuleId>, m: ModuleId)
    requires FailedAt(g, list, visiting, m)
    ensures list != []
  {
  }

  lemma {:induction false} TopFailure(g: Graph, list: seq<ModuleId>, m: ModuleId)
    requires FailedAt(g, list, {}, m)
    ensures list != [] && CycleReport(g, list) && OnCycle(g, list[0]) && Reaches(g, m, list[0])
  {
    var k: nat :| ClosedChain(g, list, k, m);
    ReportShowsCycle(g, list, k);
  }

  lemma {:induction false} DepAt(g: Graph, m: ModuleId, i: nat)
    requires m in g.deps && i < |g.deps[m]|
    ensures Dep(g, m, g.deps[m][i])
  {
  }

  lemma {:induction false} AllDepsSeen(g: Graph, m: ModuleId, visited: set<ModuleId>)
    requires m in g.deps ==> forall j | 0 <= j < |g.deps[m]| :: g.deps[m][j] in visited
    ensures forall d | Dep(g, m, d) :: d in visited
  {
  }

  lemma {:induction false} NothingExplored(g: Graph)
    ensures Explored(g, {})
  {
  }

  lemma {:induction false} ModuleIsNode(g: Graph, m: ModuleId)
    requires m in g.modules
    ensures m in Nodes(g)
  {
  }

  lemma {:induction false} ExploredHasNoCycle(g: Graph, visited: set<ModuleId>)
    requires Explored(g, visited) && g.modules <= visited
    ensures forall m, x | m in g.modules && Reaches(g, m, x) :: !OnCycle(g, x)
  {
    hide OnCycle, Reaches;
    forall m, x | m in g.modules && Reaches(g, m, x) ensures !OnCycle(g, x) {
      ReachedStaysInside(g, visited, m, x);
    }
  }

  lemma {:induction false} ClosedCyclesAreReached(g: Graph)
    ensures Closed(g) ==>
              (Acyclic(g) <==> forall m, x | m in g.modules && Reaches(g, m, x) :: !OnCycle(g, x))
  {
    hide OnCycle, Dep;
    if Closed(g) {
      forall x | OnCycle(g, x) ensures x in g.modules && Reaches(g, x, x) {
        CycleFirstStep(g, x);
        ReachesRefl(g, x);
      }
    }
  }

  lemma {:induction false} NothingCounted(g: Graph, degrees: Degrees)
    requires degrees.Keys == g.modules && forall m | m in degrees :: degrees[m] == 0
    ensures Counts(g, degrees, g.modules, SlotsOf(g, {}))
  {
    assert SlotsOf(g, {}) == {};
    forall x ensures Into(g, {}, x) == {} {
    }
  }

  lemma {:induction false} CountsKeys(g: Graph, degrees: Degrees, keys: set<ModuleId>, slots: set<Slot>)
    requires Counts(g, degrees, keys, slots)
    ensures degrees.Keys == keys
  {
  }

  lemma {:induction false} SlotsStart(g: Graph, done: set<ModuleId>, m: ModuleId)
    requires m !in done
    ensures SlotsOf(g, done + {m}) - SlotsFrom(g, m, 0) == SlotsOf(g, done)
  {
  }

  lemma {:induction false} SlotAt(g: Graph, sources: set<ModuleId>, m: ModuleId, i: nat)
    requires m in sources && m in g.deps && i < |g.deps[m]|
    ensures var slots := SlotsOf(g, sources);
            && Slot(m, i) !in slots - SlotsFrom(g, m, i) && IsSlot(g, Slot(m, i)) &&
               Target(g, Slot(m, i)) == g.deps[m][i]
            && slots - SlotsFrom(g, m, i + 1) == (slots - SlotsFrom(g, m, i)) + {Slot(m, i)}
  {
  }

  lemma {:induction false} SlotsEnd(g: Graph, m: ModuleId)
    ensures SlotsFrom(g, m, |DepsOf(g, m)|) == {}
  {
  }

  lemma {:induction false} SlotsRest(g: Graph, sources: set<ModuleId>, m: ModuleId)
    requires m in sources
    ensures SlotsOf(g, sources) == SlotsOf(g, sources - {m}) + SlotsFrom(g, m, 0)
  {
  }

  lemma {:induction false} SlotLeaves(g: Graph, others: set<ModuleId>, m: ModuleId, i: nat)
    requires m !in others && m in g.deps && i < |g.deps[m]|
    ensures var slots := SlotsOf(g, others) + SlotsFrom(g, m, i);
            && Slot(m, i) in slots && IsSlot(g, Slot(m, i)) && Target(g, Slot(m, i)) == g.deps[m][i]
            && SlotsOf(g, others) + SlotsFrom(g, m, i + 1) == slots - {Slot(m, i)}
  {
  }

  lemma {:induction false} NothingListed(g: Graph)
    ensures DependentsFirst(g, [])
  {
  }

  lemma {:induction false} SourceIsCounted(g: Graph, degrees: Degrees, sources: set<ModuleId>, a: ModuleId, m: ModuleId)
    requires Counts(g, degrees, Counted(g), SlotsOf(g, sources)) && m in degrees
    requires Dep(g, a, m) && a in sources
    ensures degrees[m] > 0
  {
    var i :| 0 <= i < |DepsOf(g, a)| && DepsOf(g, a)[i] == m;
    assert Slot(a, i) in Into(g, SlotsOf(g, sources), m);
  }

  /** With degree zero, everything that depends on `m` has been listed. */
  lemma {:induction false} NoSlotMeansListed(
      g: Graph, degrees: Degrees, sources: set<ModuleId>, sorted: seq<ModuleId>, m: ModuleId)
    requires Counts(g, degrees, Counted(g), SlotsOf(g, sources)) && m in degrees
    requires sources == g.deps.Keys - Listed(sorted)
    ensures degrees[m] == 0 ==> forall a | Dep(g, a, m) :: a in sorted
  {
    hide Counts, SlotsOf, Counted;
    forall a | Dep(g, a, m) && a in sources ensures degrees[m] > 0 {
      SourceIsCounted(g, degrees, sources, a, m);
    }
  }

  lemma {:induction false} ListOneMore(g: Graph, sorted: seq<ModuleId>, m: ModuleId)
    requires Distinct(sorted) && DependentsFirst(g, sorted) && m !in sorted
    requires forall a | Dep(g, a, m) :: a in sorted
    ensures Distinct(sorted + [m]) && DependentsFirst(g, sorted + [m])
    ensures Listed(sorted + [m]) == Listed(sorted) + {m}
  {
    hide Dep;
    var longer := sorted + [m];
    forall a, j | 0 <= j < |longer| && Dep(g, a, longer[j]) ensures exists i :: 0 <= i < j && longer[i] == a {
      if j < |sorted| {
        var i :| 0 <= i < j && sorted[i] == a;
        assert longer[i] == a;
      } else {
        var i :| 0 <= i < |sorted| && sorted[i] == a;
        assert longer[i] == a;
      }
    }
  }

  lemma {:induction false} WhenDrained(g: Graph, degrees: Degrees, sources: set<ModuleId>, sorted: seq<ModuleId>)
    requires Counts(g, degrees, Counted(g), SlotsOf(g, sources)) && degrees.Keys == Counted(g)
    requires sources == g.deps.Keys - Listed(sorted)
    requires Distinct(sorted) && DependentsFirst(g, sorted)
    requires forall x :: x in sorted <==> x in degrees && degrees[x] == 0
    ensures Listed(sorted) == EmittedSet(g) && |sorted| == |EmittedSet(g)|
    ensures CompilationOrder(g, Reversed(sorted)) && forall x :: x in Reversed(sorted) <==> x in EmittedSet(g)
  {
    hide Counts, Counted, DependentsFirst, SlotsOf, EmittedSet, CompilationOrder;
    assert Drained(g, degrees, sorted);
    DrainedIsEmittedSet(g, degrees, sorted);
    DistinctCount(sorted);
    ReversedIsOrder(g, sorted);
    assert forall x :: x in sorted <==> x in Listed(sorted);
  }

  /** When every edge joins registered modules, the modules are exactly what is counted, and all of
      them are emitted iff there is no cycle. */
  lemma {:induction false} ClosedEmitsAllIffAcyclic(g: Graph)
    ensures Closed(g) ==> (|EmittedSet(g)| == |g.modules| <==> Acyclic(g))
    ensures Closed(g) && Acyclic(g) ==> EmittedSet(g) == g.modules
  {
    hide OnCycle, Reaches;
    if Closed(g) {
      CountedWhenClosed(g);
      if Acyclic(g) {
        forall x | x in g.modules ensures Emitted(g, x) {
          forall a | Reaches(g, a, x) ensures a in g.modules {
            AncestorRegistered(g, a, x);
          }
        }
        assert EmittedSet(g) == g.modules;
      } else {
        var x :| OnCycle(g, x);
        CycleFirstStep(g, x);
        ReachesRefl(g, x);
        assert x in g.modules && x !in EmittedSet(g);
        assert EmittedSet(g) <= g.modules - {x};
        SubsetSmaller(EmittedSet(g), g.modules - {x});
      }
    }
  }

  lemma {:induction false} SubsetSmaller(s: set<ModuleId>, t: set<ModuleId>)
    requires s <= t
    ensures |s| <= |t|
  {
    assert t == s + (t - s);
  }

  lemma {:induction false} CountedWhenClosed(g: Graph)
    requires Closed(g)
    ensures Counted(g) == g.modules
  {
    forall m, d | m in g.deps && d in g.deps[m] ensures d in g.modules {
      assert Dep(g, m, d);
    }
  }

  lemma {:induction false} AncestorRegistered(g: Graph, a: ModuleId, x: ModuleId)
    requires Closed(g) && x in g.modules && Reaches(g, a, x)
    ensures a in g.modules
  {
    var p :| IsPathFromTo(g, p, a, x);
    if |p| > 1 {
      assert Dep(g, p[0], p[1]);
    }
  }

  // ----- The registry -----

  /** Paths and ids correspond one to one, names lead to registered modules, ids are not reused. */
  ghost predicate Consistent(
    pathToId: map<string, ModuleId>, nameToId: map<string, ModuleId>, modules: map<ModuleId, ModuleInfo>,
    sources: set<ModuleId>, nextId: nat)
  {
    && (forall p | p in pathToId :: pathToId[p] in modules && modules[pathToId[p]].path == p)
    && (forall id | id in modules ::
          && id < nextId && modules[id].id == id && id in sources
          && modules[id].path in pathToId && pathToId[modules[id].path] == id)
    && (forall n | n in nameToId :: nameToId[n] in modules)
  }

  lemma {:induction false} ModuleHasList(
      pathToId: map<string, ModuleId>, nameToId: map<string, ModuleId>, modules: map<ModuleId, ModuleInfo>,
      sources: set<ModuleId>, nextId: nat, id: ModuleId)
    requires Consistent(pathToId, nameToId, modules, sources, nextId) && id in modules
    ensures id in sources
  {
  }

  lemma {:induction false} RegisteringKeepsConsistent(
      pathToId: map<string, ModuleId>, nameToId: map<string, ModuleId>, modules: map<ModuleId, ModuleInfo>,
      sources: set<ModuleId>, nextId: nat, info: ModuleInfo)
    requires Consistent(pathToId, nameToId, modules, sources, nextId)
    requires info.path !in pathToId && info.id == nextId
    ensures Consistent(pathToId[info.path := nextId], nameToId[info.name := nextId],
                       modules[nextId := info], sources + {nextId}, nextId + 1)
    ensures nextId !in modules
  {
  }

  function ResolveImports(names: map<string, ModuleId>, imports: seq<Import>): seq<ModuleId>
  {
    if imports == [] then []
    else
      var last := imports[|imports|-1].importedName;
      ResolveImports(names, imports[..|imports|-1]) + (if last in names then [names[last]] else [])
  }

  /** The targets are the modules that imports name, an import of an unknown name being passed over. */
  lemma {:induction false} ResolvesNamed(names: map<string, ModuleId>, imports: seq<Import>, d: ModuleId)
    ensures |ResolveImports(names, imports)| <= |imports|
    ensures d in ResolveImports(names, imports) <==>
              exists i | i in imports :: i.importedName in names && names[i.importedName] == d
  {
    if imports != [] {
      var front, last := imports[..|imports|-1], imports[|imports|-1];
      assert forall i :: i in imports <==> i in front || i == last;
      ResolvesNamed(names, front, d);
    }
  }

  // ----- Why both ends of an edge must be registered -----

  /** An edge to an unregistered module: no cycle, yet two modules are emitted where one is
      registered, so the order is refused. */
  lemma {:induction false} UnregisteredTargetRefused()
    ensures var g := Graph({0}, map[0 := [5]]); Acyclic(g) && |EmittedSet(g)| != |g.modules|
  {
    var g, s := Graph({0}, map[0 := [5]]), [0, 5];
    assert DependentsFirst(g, s) by {
      assert s[0] == 0;
    }
    TargetIsCounted(g, 0, 5);
    SortedIsEmitted(g, s, 0);
    SortedIsEmitted(g, s, 5);
    assert EmittedSet(g) == {0, 5};
    forall x | OnCycle(g, x) ensures x in s {
      CycleFirstStep(g, x);
    }
    forall x ensures !OnCycle(g, x) {
      if x in s {
        OrderedHasNoCycle(g, s, x);
      }
    }
  }

  /** An unregistered module can also stand in for one that is stuck on a cycle: the counts agree and
      an order is returned although module 0 depends on itself. */
  lemma {:induction false} UnregisteredTargetHidesCycle()
    ensures var g := Graph({0, 1}, map[0 := [0], 1 := [5]]); !Acyclic(g) && |EmittedSet(g)| == |g.modules|
  {
    var g, s := Graph({0, 1}, map[0 := [0], 1 := [5]]), [1, 5];
    TargetIsCounted(g, 1, 5);
    assert Counted(g) == {0, 1, 5} by {
      forall x | x in Counted(g) ensures x in {0, 1, 5} {
      }
    }
    assert DependentsFirst(g, s) by {
      assert s[0] == 1;
    }
    hide Counted, DependentsFirst;
    SortedIsEmitted(g, s, 1);
    SortedIsEmitted(g, s, 5);
    assert OnCycle(g, 0) by {
      assert IsPathFromTo(g, [0, 0], 0, 0) && |[0, 0]| >= 2;
    }
    ReachesRefl(g, 0);
    hide Reaches, OnCycle, Dep;
    assert !Acyclic(g) && !Emitted(g, 0);
    assert EmittedSet(g) == {1, 5};
  }

  class ModuleRegistry {
    var pathToId: map<string, ModuleId>
    var nameToId: map<string, ModuleId>
    var modules: map<ModuleId, ModuleInfo>
    var dependencies: map<ModuleId, seq<ModuleId>>
    var nextId: nat

    ghost function View(): Graph
      reads this
    {
      Graph(modules.Keys, dependencies)
    }

    ghost predicate Valid()
      reads this
    {
      Consistent(pathToId, nameToId, modules, dependencies.Keys, nextId)
    }

    constructor ()
      ensures Valid() && Closed(View()) && modules == map[] && dependencies == map[]
    {
      pathToId, nameToId, modules, dependencies, nextId := map[], map[], map[], map[], 0;
    }

    /** A known path keeps its id and changes nothing; a new path gets a fresh id without edges. */
    method RegisterModule(path: string, name: string, imports: seq<Import>) returns (id: ModuleId)
      requires Valid()
      modifies this
      ensures Valid() && id in modules && modules[id].path == path
      ensures path in old(pathToId) ==>
                id == old(pathToId)[path] && modules == old(modules) && dependencies == old(dependencies)
                && nameToId == old(nameToId) && pathToId == old(pathToId) && nextId == old(nextId)
      ensures path !in old(pathToId) ==>
                && id !in old(modules)
                && modules == old(modules)[id := ModuleInfo(id, name, path, imports)]
                && dependencies == old(dependencies)[id := []]
                && nameToId == old(nameToId)[name := id] && pathToId == old(pathToId)[path := id]
      ensures old(Closed(View())) ==> Closed(View())
    {
      if path in pathToId {
        return pathToId[path];
      }
      hide Closed, Consistent;
      ghost var g := View();
      var info := ModuleInfo(nextId, name, path, imports);
      RegisteringKeepsConsistent(pathToId, nameToId, modules, dependencies.Keys, nextId, info);
      EdgelessAdded(g, Graph(g.modules + {nextId}, g.deps[nextId := []]), nextId);
      id := nextId;
      nextId := nextId + 1;
      pathToId := pathToId[path := id];
      nameToId := nameToId[name := id];
      modules := modules[id := info];
      dependencies := dependencies[id := []];
      assert dependencies.Keys == g.deps.Keys + {id};
      assert View() == Graph(g.modules + {id}, g.deps[id := []]);
    }

    method AddDependency(from: ModuleId, to: ModuleId)
      requires Valid()
      modifies this`dependencies
      ensures Valid()
      ensures dependencies == old(dependencies)[from := DepsOf(old(View()), from) + [to]]
      ensures Closed(View()) <==> old(Closed(View())) && from in modules && to in modules
    {
      hide Closed;
      var deps := if from in dependencies then dependencies[from] else [];
      ghost var before := View();
      dependencies := dependencies[from := deps + [to]];
      EdgeAdded(before, View(), from, to);
    }

    /** Adds, for every import of `id` that names a registered module, an edge to that module. */
    method LinkModule(id: ModuleId)
      requires Valid() && id in modules
      modifies this`dependencies
      ensures Valid() && (old(Closed(View())) ==> Closed(View()))
      ensures dependencies.Keys == old(dependencies).Keys
      ensures forall x | x in dependencies && x != id :: dependencies[x] == old(dependencies)[x]
      ensures dependencies[id] == old(dependencies)[id] + ResolveImports(nameToId, modules[id].imports)
    {
      hide Closed;
      var imports := modules[id].imports;
      for i := 0 to |imports|
        invariant Valid() && (old(Closed(View())) ==> Closed(View()))
        invariant dependencies.Keys == old(dependencies).Keys
        invariant forall x | x in dependencies && x != id :: dependencies[x] == old(dependencies)[x]
        invariant dependencies[id] == old(dependencies)[id] + ResolveImports(nameToId, imports[..i])
      {
        assert imports[..i+1][..i] == imports[..i];
        if imports[i].importedName in nameToId {
          AddDependency(id, nameToId[imports[i].importedName]);
        }
      }
      assert imports[..|imports|] == imports;
    }

    /** The driver's edge building: afterwards every edge still joins registered modules, and each
        module's list has grown by exactly its resolvable imports, in order. */
    method LinkImports()
      requires Valid()
      modifies this`dependencies
      ensures Valid() && (old(Closed(View())) ==> Closed(View()))
      ensures dependencies.Keys == old(dependencies).Keys
      ensures forall id | id in dependencies ::
                dependencies[id] == old(dependencies)[id] +
                  (if id in modules then ResolveImports(nameToId, modules[id].imports) else [])
    {
      hide Closed, Consistent, ResolveImports;
      var todo := modules.Keys;
      while todo != {}
        invariant todo <= modules.Keys
        invariant Valid() && (old(Closed(View())) ==> Closed(View()))
        invariant dependencies.Keys == old(dependencies).Keys
        invariant forall id | id in dependencies ::
                    dependencies[id] == old(dependencies)[id] +
                      (if id in modules && id !in todo then ResolveImports(nameToId, modules[id].imports) else [])
        decreases todo
      {
        var id :| id in todo;
        todo := todo - {id};
        ModuleHasList(pathToId, nameToId, modules, dependencies.Keys, nextId, id);
        LinkModule(id);
      }
    }

    // ----- Cycle detection -----

    /** Searches from `m` while `visiting` is on the stack. On success `m` and all below it are
        explored; on failure the list is a chain or a closed cycle, see `FailedAt`. Every nested call
        has one more module in `visiting`, which bounds the depth of the recursion. */
    method DfsCycleCheck(m: ModuleId, visiting: set<ModuleId>, visited: set<ModuleId>)
      returns (r: Result<(), seq<ModuleId>>, visiting': set<ModuleId>, visited': set<ModuleId>)
      requires m in Nodes(View()) && Explored(View(), visited) && visiting !! visited
      ensures r.Ok? ==>
                && visiting' == visiting && visited + {m} <= visited'
                && Explored(View(), visited') && visiting !! visited'
      ensures r.Err? ==> FailedAt(View(), r.error, visiting, m)
      decreases Nodes(View()) - visiting
    {
      hide Explored, FailedAt, Nodes, Dep;
      ghost var g := View();
      visiting', visited' := visiting, visited;
      if m in visiting {
        ImmediateFailure(g, visiting, m);
        return Err([m]), visiting, visited;
      }
      if m in visited {
        return Ok(()), visiting, visited;
      }
      visiting' := visiting + {m};
      if m in dependencies {
        var deps := dependencies[m];
        for i := 0 to |deps|
          invariant visiting' == visiting + {m} && visited <= visited'
          invariant Explored(g, visited') && visiting' !! visited'
          invariant forall j | 0 <= j < i :: deps[j] in visited'
        {
          DepAt(g, m, i);
          DepIsNode(g, m, deps[i]);
          ghost var stack := visiting';
          r, visiting', visited' := DfsCycleCheck(deps[i], visiting', visited');
          if r.Err? {
            FailureClimbs(g, r.error, visiting, m, deps[i]);
            FailureNonEmpty(g, r.error, stack, deps[i]);
            var cycle := r.error;
            if cycle[0] == m {
              return Err(cycle), visiting', visited';
            }
            cycle := cycle + [m];
            return Err(cycle), visiting', visited';
          }
        }
      }
      AllDepsSeen(g, m, visited');
      ExploreOneMore(g, visited', m);
      visiting' := visiting' - {m};
      visited' := visited' + {m};
      r := Ok(());
    }

    /** Fails exactly when a cycle can be reached from a registered module, and then the list begins
        with such a cycle. */
    method CheckCycles() returns (r: Result<(), seq<ModuleId>>)
      ensures r.Ok? <==> forall m, x | m in modules && Reaches(View(), m, x) :: !OnCycle(View(), x)
      ensures r.Err? ==> r.error != [] && CycleReport(View(), r.error) && OnCycle(View(), r.error[0])
      ensures Closed(View()) ==> (r.Ok? <==> Acyclic(View()))
    {
      hide Explored, FailedAt, Nodes, OnCycle, Closed, Acyclic, CycleReport;
      ghost var g := View();
      var visiting: set<ModuleId>, visited: set<ModuleId> := {}, {};
      NothingExplored(g);
      ClosedCyclesAreReached(g);
      var todo := modules.Keys;
      while todo != {}
        invariant todo <= modules.Keys <= todo + visited
        invariant visiting == {} && Explored(g, visited)
        decreases todo
      {
        var m :| m in todo;
        todo := todo - {m};
        if m !in visited {
          ModuleIsNode(g, m);
          r, visiting, visited := DfsCycleCheck(m, visiting, visited);
          if r.Err? {
            TopFailure(g, r.error, m);
            return;
          }
        }
      }
      r := Ok(());
      ExploredHasNoCycle(g, visited);
    }

    // ----- Topological order -----

    /** Counts every occurrence in the list of `m`. */
    method CountDeps(m: ModuleId, degrees: Degrees, ghost keys: set<ModuleId>, ghost done: set<ModuleId>)
      returns (degrees': Degrees)
      requires m in dependencies && m !in done
      requires Counts(View(), degrees, keys, SlotsOf(View(), done))
      ensures Counts(View(), degrees', keys + (set d | d in dependencies[m]), SlotsOf(View(), done + {m}))
    {
      hide Counts, SlotsOf, SlotsFrom, IsSlot, Target;
      ghost var g := View();
      degrees' := degrees;
      var deps := dependencies[m];
      ghost var all, known := SlotsOf(g, done + {m}), keys;
      SlotsStart(g, done, m);
      for i := 0 to |deps|
        invariant Counts(g, degrees', known, all - SlotsFrom(g, m, i))
        invariant known == keys + set d | d in deps[..i]
      {
        SlotAt(g, done + {m}, m, i);
        CountOneMore(g, degrees', known, all - SlotsFrom(g, m, i), Slot(m, i));
        var t := deps[i];
        degrees' := degrees'[t := (if t in degrees' then degrees'[t] else 0) + 1];
        known := known + {t};
        assert deps[..i+1] == deps[..i] + [t];
      }
      assert deps[..|deps|] == deps;
      SlotsEnd(g, m);
      assert all - {} == all;
    }

    /** The in-degrees: zero for every module, plus one for every occurrence in a dependency list. */
    method InDegrees() returns (degrees: Degrees)
      ensures Counts(View(), degrees, Counted(View()), SlotsOf(View(), dependencies.Keys))
    {
      hide Counts, SlotsOf;
      ghost var g := View();
      degrees := map m | m in modules.Keys :: 0;
      NothingCounted(g, degrees);
      ghost var keys, done: set<ModuleId> := modules.Keys, {};
      var todo := dependencies.Keys;
      while todo != {}
        invariant todo + done == dependencies.Keys && todo !! done
        invariant Counts(g, degrees, keys, SlotsOf(g, done))
        invariant keys == modules.Keys + set m, d | m in done && d in dependencies[m] :: d
        decreases todo
      {
        var m :| m in todo;
        todo := todo - {m};
        degrees := CountDeps(m, degrees, keys, done);
        keys, done := keys + (set d | d in dependencies[m]), done + {m};
      }
      assert done == dependencies.Keys;
    }

    /** The keys of degree zero, in some order. */
    method ZeroDegree(degrees: Degrees) returns (queue: seq<ModuleId>)
      ensures Distinct(queue)
      ensures forall x :: x in queue <==> x in degrees && degrees[x] == 0
    {
      queue := [];
      var todo := degrees.Keys;
      while todo != {}
        invariant todo <= degrees.Keys && Distinct(queue)
        invariant forall x :: x in queue <==> x in degrees && degrees[x] == 0 && x !in todo
        decreases todo
      {
        var x :| x in todo;
        todo := todo - {x};
        if degrees[x] == 0 {
          queue := queue + [x];
        }
      }
    }

    /** Takes the slots of `m` out of the count; whatever reaches zero joins the queue. */
    method Release(m: ModuleId, degrees: Degrees, queue: seq<ModuleId>, ghost sources: set<ModuleId>)
      returns (degrees': Degrees, queue': seq<ModuleId>)
      requires Counts(View(), degrees, Counted(View()), SlotsOf(View(), sources)) && Distinct(queue)
      requires m in dependencies <==> m in sources
      requires forall x | x in queue :: x in degrees && degrees[x] == 0
      ensures Counts(View(), degrees', Counted(View()), SlotsOf(View(), sources - {m}))
      ensures Distinct(queue')
      ensures forall x :: x in queue' <==> x in queue || (x in degrees && degrees[x] != 0 && degrees'[x] == 0)
      ensures forall x | x in degrees && degrees[x] == 0 :: degrees'[x] == 0
    {
      hide Counts, SlotsOf, SlotsFrom, IsSlot, Target, Counted;
      ghost var g := View();
      degrees', queue' := degrees, queue;
      CountsKeys(g, degrees, Counted(g), SlotsOf(g, sources));
      if m in dependencies {
        SlotsRest(g, sources, m);
        var deps := dependencies[m];
        for i := 0 to |deps|
          invariant Counts(g, degrees', Counted(g), SlotsOf(g, sources - {m}) + SlotsFrom(g, m, i))
          invariant degrees'.Keys == degrees.Keys
          invariant Distinct(queue')
          invariant forall x :: x in queue' <==> x in queue || (x in degrees && degrees[x] != 0 && degrees'[x] == 0)
          invariant forall x | x in degrees && degrees[x] == 0 :: degrees'[x] == 0
        {
          SlotLeaves(g, sources - {m}, m, i);
          CountOneLess(g, degrees', Counted(g), SlotsOf(g, sources - {m}) + SlotsFrom(g, m, i), Slot(m, i));
          var d := deps[i];
          degrees' := degrees'[d := degrees'[d] - 1];
          if degrees'[d] == 0 {
            queue' := queue' + [d];
          }
        }
        SlotsEnd(g, m);
        assert SlotsOf(g, sources - {m}) + {} == SlotsOf(g, sources - {m});
      } else {
        assert sources - {m} == sources;
      }
    }

    /** Succeeds exactly when what can be emitted is as numerous as the modules, and then lists it as
        a compilation order. When every edge joins registered modules, that is: succeeds exactly on
        acyclic graphs, with every module listed. */
    method TopologicalSort() returns (r: Result<seq<ModuleId>, ()>)
      ensures r.Ok? <==> |EmittedSet(View())| == |modules|
      ensures r.Ok? ==> CompilationOrder(View(), r.value) && forall x :: x in r.value <==> x in EmittedSet(View())
      ensures Closed(View()) ==> (r.Ok? <==> Acyclic(View()))
      ensures Closed(View()) && r.Ok? ==> forall x :: x in r.value <==> x in modules
    {
      hide Counts, SlotsOf, Counted, DependentsFirst, EmittedSet, Closed, Acyclic, CompilationOrder;
      ghost var g := View();
      var degrees := InDegrees();
      var queue := ZeroDegree(degrees);
      var sorted: seq<ModuleId> := [];
      ghost var sources, listed: set<ModuleId> := dependencies.Keys, {};
      CountsKeys(g, degrees, Counted(g), SlotsOf(g, sources));
      NothingListed(g);
      while queue != []
        invariant Counts(g, degrees, Counted(g), SlotsOf(g, sources)) && degrees.Keys == Counted(g)
        invariant listed == Listed(sorted) && sources == dependencies.Keys - listed
        invariant Distinct(queue) && Distinct(sorted) && DependentsFirst(g, sorted)
        invariant forall x | x in queue :: x !in sorted
        invariant forall x :: x in queue || x in sorted <==> x in degrees && degrees[x] == 0
        decreases Counted(g) - listed
      {
        var m := queue[0];
        ghost var before := queue;
        queue := queue[1..];
        assert before == [m] + queue;
        NoSlotMeansListed(g, degrees, sources, sorted, m);
        ListOneMore(g, sorted, m);
        sorted, listed := sorted + [m], listed + {m};
        degrees, queue := Release(m, degrees, queue, sources);
        sources := sources - {m};
        CountsKeys(g, degrees, Counted(g), SlotsOf(g, sources));
      }
      WhenDrained(g, degrees, sources, sorted);
      if |sorted| == |modules| {
        sorted := Reversed(sorted);
        r := Ok(sorted);
      } else {
        r := Err(());
      }
      ClosedEmitsAllIffAcyclic(g);
    }

    /** The driver's use of both: after a cycle check that found nothing, sorting cannot fail, so the
        error for a failed sort is never emitted. */
    method OrderModules() returns (r: Result<seq<ModuleId>, seq<ModuleId>>)
      requires Closed(View())
      ensures r.Ok? <==> Acyclic(View())
      ensures r.Ok? ==> CompilationOrder(View(), r.value) && forall x :: x in r.value <==> x in modules
      ensures r.Err? ==> r.error != [] && OnCycle(View(), r.error[0])
    {
      hide *;
      var cycles := CheckCycles();
      if cycles.Err? {
        return Err(cycles.error);
      }
      var sorted := TopologicalSort();
      match sorted {
        case Ok(order) => r := Ok(order);
        case Err(_) => assert false;
      }
    }
  }
}
