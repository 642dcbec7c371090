/** The pigeonhole argument. */
module Counting {
  /** More entries than there are values: some value stands twice. */
  lemma {:induction false} Pigeonhole<T>(p: seq<T>, s: set<T>)
    requires (forall x | x in p :: x in s) && |p| > |s|
    ensures exists i, j :: 0 <= i < j < |p| && p[i] == p[j]
  {
    var front, last := p[..|p|-1], p[|p|-1];
    if last in front {
      var i :| 0 <= i < |front| && front[i] == last;
      assert p[i] == p[|p|-1];
    } else {
      assert s == (s - {last}) + {last};
      Pigeonhole(front, s - {last});
      var i, j :| 0 <= i < j < |front| && front[i] == front[j];
      assert p[i] == p[j];
    }
  }
}
