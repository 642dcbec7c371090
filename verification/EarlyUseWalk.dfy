/** What the walk for early uses finds: it comes to every block that can be reached, so a local that is
    used in one of them and neither declared nor stored to anywhere is reported. */
module EarlyUseWalk {
  import opened Diag
  import opened Hir
  import opened CfgGraph
  import opened ValidateLocals

  // ----- The walk comes to every reachable block -----

  /** What was newly visited leads only to what has been visited. */
  ghost predicate NewlyClosed(c: Cfg, before: set<BlockId>, after: set<BlockId>)
  {
    forall a, b | a in after && a !in before && Edge(c, a, b) :: b in after
  }

  lemma {:induction false} WalkClosed(c: Cfg, id: BlockId, defined: set<LocalId>, w: UseWalk)
    ensures var r := WalkUses(c, id, defined, w); id in r.visited && NewlyClosed(c, w.visited, r.visited)
    decreases Unseen(c, w.visited), 0, 0
  {
    hide BlockUses, DefinedByAll, Onward;
    var b := FindBlock(c.blocks, id);
    if id !in w.visited && b.Some? {
      EnterBlock(c, w.visited, id);
      var entered := UseWalk(w.visited + {id}, w.log + BlockUses(b.value, defined));
      OnwardClosed(c, Onward(b.value.terminator), DefinedByAll(b.value.stmts, defined), entered);
      forall x | Edge(c, id, x) ensures x in Onward(b.value.terminator) {
        OnwardIsSuccessors(b.value.terminator, x);
      }
    }
  }

  lemma {:induction false} OnwardIsSuccessors(t: HirTerminator, x: BlockId)
    ensures x in Onward(t) <==> x in Successors(t)
  {
  }

  lemma {:induction false} OnwardClosed(c: Cfg, ids: seq<BlockId>, defined: set<LocalId>, w: UseWalk)
    ensures var r := WalkOnward(c, ids, defined, w);
            (forall id | id in ids :: id in r.visited) && NewlyClosed(c, w.visited, r.visited)
    decreases Unseen(c, w.visited), 1, |ids|
  {
    hide WalkUses, Edge;
    if ids != [] {
      var first := WalkUses(c, ids[0], defined, w);
      WalkClosed(c, ids[0], defined, w);
      SeenMore(c, w.visited, first.visited);
      OnwardClosed(c, ids[1..], defined, first);
    }
  }

  lemma {:induction false} WalkVisitsReachable(c: Cfg, id: BlockId)
    requires Reaches(c, c.entry, id)
    ensures id in WalkUses(c, c.entry, Declared(|c.locals|), UseWalk({}, [])).visited
  {
    hide WalkUses, Edge;
    var r := WalkUses(c, c.entry, Declared(|c.locals|), UseWalk({}, []));
    WalkClosed(c, c.entry, Declared(|c.locals|), UseWalk({}, []));
    ClosedContainsReachable(c, r.visited, c.entry, id);
  }

  // ----- More definitions, fewer reports -----

  lemma {:induction false} FewerOperandUses(o: HirOperand, s: set<LocalId>, t: set<LocalId>, span: Span)
    requires s <= t && OperandUses(o, t, span) != []
    ensures OperandUses(o, s, span) != []
  {
  }

  lemma {:induction false} FewerOperandsUses(os: seq<HirOperand>, s: set<LocalId>, t: set<LocalId>, span: Span)
    requires s <= t && OperandsUses(os, t, span) != []
    ensures OperandsUses(os, s, span) != []
  {
    hide OperandUses;
    var front, last := os[..|os|-1], os[|os|-1];
    if OperandUses(last, t, span) != [] {
      FewerOperandUses(last, s, t, span);
    } else {
      FewerOperandsUses(front, s, t, span);
    }
  }

  lemma {:induction false} FewerStmtUses(st: HirStmt, s: set<LocalId>, t: set<LocalId>)
    requires s <= t && StmtUses(st, t) != []
    ensures StmtUses(st, s) != []
  {
    hide OperandUses, OperandsUses;
    forall o, span | OperandUses(o, t, span) != [] ensures OperandUses(o, s, span) != [] {
      FewerOperandUses(o, s, t, span);
    }
    forall os, span | OperandsUses(os, t, span) != [] ensures OperandsUses(os, s, span) != [] {
      FewerOperandsUses(os, s, t, span);
    }
  }

  /** Every local that is declared or stored to. */
  ghost predicate CoversDefinitions(c: Cfg, ever: set<LocalId>)
  {
    Declared(|c.locals|) <= ever && forall b, s | b in c.blocks && s in b.stmts :: DefinedBy(s, ever) == ever
  }

  lemma {:induction false} DefinedGrows(st: HirStmt, s: set<LocalId>, t: set<LocalId>)
    requires s <= t
    ensures DefinedBy(st, s) <= DefinedBy(st, t)
  {
  }

  lemma {:induction false} FewerStmtsUses(ss: seq<HirStmt>, s: set<LocalId>, ever: set<LocalId>)
    requires s <= ever && forall st | st in ss :: DefinedBy(st, ever) == ever
    ensures DefinedByAll(ss, s) <= ever && DefinedByAll(ss, ever) == ever
    ensures StmtsUses(ss, ever) != [] ==> StmtsUses(ss, s) != []
  {
    hide StmtUses, DefinedBy;
    if ss != [] {
      var front, last := ss[..|ss|-1], ss[|ss|-1];
      assert ss == front + [last] && last in ss;
      FewerStmtsUses(front, s, ever);
      DefinedGrows(last, DefinedByAll(front, s), ever);
      if StmtUses(last, ever) != [] {
        FewerStmtUses(last, DefinedByAll(front, s), ever);
      }
    }
  }

  lemma {:induction false} FewerBlockUses(c: Cfg, b: HirBlock, s: set<LocalId>, ever: set<LocalId>)
    requires b in c.blocks && s <= ever && CoversDefinitions(c, ever)
    ensures DefinedByAll(b.stmts, s) <= ever
    ensures BlockUses(b, ever) != [] ==> BlockUses(b, s) != []
  {
    hide StmtsUses, DefinedByAll, OperandUses, DefinedBy, Declared;
    FewerStmtsUses(b.stmts, s, ever);
    forall o, span | OperandUses(o, ever, span) != [] ensures OperandUses(o, DefinedByAll(b.stmts, s), span) != [] {
      FewerOperandUses(o, DefinedByAll(b.stmts, s), ever, span);
    }
  }

  // ----- Every visited block has been examined -----

  ghost predicate UsesUndefined(c: Cfg, id: BlockId, ever: set<LocalId>)
  {
    var b := FindBlock(c.blocks, id); b.Some? && BlockUses(b.value, ever) != []
  }

  lemma {:induction false} WalkCatches(
      c: Cfg, id: BlockId, defined: set<LocalId>, w: UseWalk, ever: set<LocalId>, x: BlockId)
    requires CoversDefinitions(c, ever) && defined <= ever && UsesUndefined(c, x, ever)
    requires x in WalkUses(c, id, defined, w).visited && x !in w.visited
    ensures |w.log| < |WalkUses(c, id, defined, w).log|
    decreases Unseen(c, w.visited), 0, 0
  {
    hide BlockUses, DefinedByAll, Onward, CoversDefinitions;
    var b := FindBlock(c.blocks, id);
    if b.Some? {
      EnterBlock(c, w.visited, id);
      FewerBlockUses(c, b.value, defined, ever);
      var entered := UseWalk(w.visited + {id}, w.log + BlockUses(b.value, defined));
      if x != id {
        OnwardCatches(c, Onward(b.value.terminator), DefinedByAll(b.value.stmts, defined), entered, ever, x);
      }
    }
  }

  lemma {:induction false} OnwardCatches(
      c: Cfg, ids: seq<BlockId>, defined: set<LocalId>, w: UseWalk, ever: set<LocalId>, x: BlockId)
    requires CoversDefinitions(c, ever) && defined <= ever && UsesUndefined(c, x, ever)
    requires x in WalkOnward(c, ids, defined, w).visited && x !in w.visited
    ensures |w.log| < |WalkOnward(c, ids, defined, w).log|
    decreases Unseen(c, w.visited), 1, |ids|
  {
    hide WalkUses, CoversDefinitions, UsesUndefined;
    if ids != [] {
      var first := WalkUses(c, ids[0], defined, w);
      SeenMore(c, w.visited, first.visited);
      if x in first.visited {
        WalkCatches(c, ids[0], defined, w, ever, x);
      } else {
        OnwardCatches(c, ids[1..], defined, first, ever, x);
      }
    }
  }

  /** A use, in a block that can be reached, of a local that is neither declared nor stored to anywhere
      does draw the warning. */
  lemma {:induction false} UndeclaredUseWarned(c: Cfg, id: BlockId, ever: set<LocalId>)
    requires CoversDefinitions(c, ever) && Reaches(c, c.entry, id) && UsesUndefined(c, id, ever)
    ensures EarlyUses(c) != []
  {
    hide WalkUses, Reaches, UsesUndefined;
    WalkVisitsReachable(c, id);
    WalkCatches(c, c.entry, Declared(|c.locals|), UseWalk({}, []), ever, id);
  }
}
