/** Paths in a control-flow graph and the worklist that collects everything the entry can reach. */
module CfgGraph {
  import opened Hir

  ghost predicate Edge(c: Cfg, a: BlockId, b: BlockId)
  {
    var block := FindBlock(c.blocks, a);
    block.Some? && b in Successors(block.value.terminator)
  }

  /** A sequence of block ids in which every step follows an edge. */
  ghost predicate IsPath(c: Cfg, p: seq<BlockId>)
  {
    p != [] && forall i | 0 <= i < |p| - 1 :: Edge(c, p[i], p[i+1])
  }

  ghost predicate IsPathFromTo(c: Cfg, p: seq<BlockId>, a: BlockId, b: BlockId)
  {
    IsPath(c, p) && p[0] == a && p[|p|-1] == b
  }

  ghost predicate Reaches(c: Cfg, a: BlockId, b: BlockId)
  {
    exists p :: IsPathFromTo(c, p, a, b)
  }

  /** Every id that can be mentioned by a run. */
  function Mentioned(c: Cfg): set<BlockId>
  {
    {c.entry} + set b, t | b in c.blocks && t in Successors(b.terminator) :: t
  }

  lemma {:induction false} ReachesRefl(c: Cfg, a: BlockId)
    ensures Reaches(c, a, a)
  {
    assert IsPathFromTo(c, [a], a, a);
  }

  lemma {:induction false} ReachesStep(c: Cfg, a: BlockId, b: BlockId, d: BlockId)
    requires Reaches(c, a, b) && Edge(c, b, d)
    ensures Reaches(c, a, d)
  {
    var p :| IsPathFromTo(c, p, a, b);
    assert IsPathFromTo(c, p + [d], a, d);
  }

  ghost predicate ClosedUnderEdges(c: Cfg, s: set<BlockId>)
  {
    forall a, b | a in s && Edge(c, a, b) :: b in s
  }

  lemma {:induction false} PathStaysInside(c: Cfg, p: seq<BlockId>, s: set<BlockId>)
    requires IsPath(c, p) && p[0] in s && ClosedUnderEdges(c, s)
    ensures p[|p|-1] in s
  {
    if |p| > 1 {
      assert Edge(c, p[0], p[1]);
      forall i | 0 <= i < |p[1..]| - 1 ensures Edge(c, p[1..][i], p[1..][i+1]) {
        assert Edge(c, p[i+1], p[i+2]);
      }
      PathStaysInside(c, p[1..], s);
    }
  }

  lemma {:induction false} ClosedContainsReachable(c: Cfg, s: set<BlockId>, a: BlockId, b: BlockId)
    requires a in s && ClosedUnderEdges(c, s) && Reaches(c, a, b)
    ensures b in s
  {
    var p :| IsPathFromTo(c, p, a, b);
    PathStaysInside(c, p, s);
  }

  ghost predicate IsReachableSet(c: Cfg, r: set<BlockId>)
  {
    forall id :: id in r <==> Reaches(c, c.entry, id)
  }

  lemma {:induction false} MentionedClosed(c: Cfg)
    ensures ClosedUnderEdges(c, Mentioned(c)) && c.entry in Mentioned(c)
  {
  }

  /** The reachable ids, dangling jump targets included. */
  ghost function ReachableSet(c: Cfg): (r: set<BlockId>)
    ensures IsReachableSet(c, r)
  {
    var r := set id | id in Mentioned(c) && Reaches(c, c.entry, id);
    assert IsReachableSet(c, r) by {
      MentionedClosed(c);
      forall id | Reaches(c, c.entry, id) ensures id in r {
        ClosedContainsReachable(c, Mentioned(c), c.entry, id);
      }
    }
    r
  }

  /** The loop shared by the validator and by dead-block removal: pop an id, skip it when it has been
      seen, otherwise push the successors of its block, if it has one. */
  method ComputeReachable(body: HirBody) returns (reachable: set<BlockId>)
    ensures reachable == ReachableSet(body.View())
  {
    ghost var c := body.View();
    reachable := {};
    var worklist := [body.entryBlock];
    MentionedClosed(c);
    ReachesRefl(c, c.entry);
    while worklist != []
      invariant reachable <= Mentioned(c)
      invariant forall i | 0 <= i < |worklist| :: worklist[i] in Mentioned(c)
      invariant forall i | 0 <= i < |worklist| :: Reaches(c, c.entry, worklist[i])
      invariant forall id | id in reachable :: Reaches(c, c.entry, id)
      invariant c.entry in reachable || c.entry in worklist
      invariant forall a, b | a in reachable && Edge(c, a, b) :: b in reachable || b in worklist
      decreases Mentioned(c) - reachable, |worklist|
    {
      var id := worklist[|worklist|-1];
      ghost var before := worklist;
      worklist := worklist[..|worklist|-1];
      assert forall x | x in before :: x == id || x in worklist;
      if id !in reachable {
        reachable := reachable + {id};
        var block := FindBlock(body.blocks, id);
        if block.Some? {
          var succs := Successors(block.value.terminator);
          forall i | 0 <= i < |succs| ensures Reaches(c, c.entry, succs[i]) && succs[i] in Mentioned(c) {
            assert Edge(c, id, succs[i]);
            ReachesStep(c, c.entry, id, succs[i]);
          }
          worklist := worklist + succs;
        }
      }
    }
    assert ClosedUnderEdges(c, reachable);
    forall id | Reaches(c, c.entry, id) ensures id in reachable {
      ClosedContainsReachable(c, reachable, c.entry, id);
    }
  }
}
