/** The bindings in scope during escape checking: a stack of scopes, searched from the innermost
    binding outwards. */
module Escape {
  import opened Wrappers
  import opened Diag

  datatype BindingKind = Own | Borrow | Plain

  /** `moved` is the place of the last move, if there was one; `depth` the scope of the definition. */
  datatype Binding = Binding(name: string, kind: BindingKind, moved: Option<Span>, depth: nat)

  type Bindings = seq<Binding>

  // ----- All bindings in a row, outermost first -----

  /** The binding a name refers to: the last one of that name. */
  function Find(env: Bindings, name: string): (r: Option<nat>)
    ensures r.Some? ==> r.value < |env| && env[r.value].name == name
    ensures r.Some? ==> forall k | r.value < k < |env| :: env[k].name != name
    ensures r.None? ==> forall k | 0 <= k < |env| :: env[k].name != name
  {
    if env == [] then None
    else if env[|env|-1].name == name then Some(|env| - 1)
    else Find(env[..|env|-1], name)
  }

  function SetState(env: Bindings, name: string, moved: Option<Span>): Bindings
  {
    var k := Find(env, name);
    if k.Some? then env[k.value := env[k.value].(moved := moved)] else env
  }

  function MarkMoved(env: Bindings, name: string, site: Span): Bindings
  {
    var k := Find(env, name);
    if k.Some? && env[k.value].kind == Own then SetState(env, name, Some(site)) else env
  }

  datatype OwnState = OwnState(name: string, moved: Option<Span>)

  function Snapshot(env: Bindings): seq<OwnState>
  {
    if env == [] then [] else
    var last := env[|env|-1];
    Snapshot(env[..|env|-1]) + if last.kind == Own then [OwnState(last.name, last.moved)] else []
  }

  function Restore(env: Bindings, snap: seq<OwnState>): Bindings
  {
    if snap == [] then env else
    var last := snap[|snap|-1];
    SetState(Restore(env, snap[..|snap|-1]), last.name, last.moved)
  }

  /** Whatever is moved in the snapshot becomes moved. */
  function MarkAll(env: Bindings, snap: seq<OwnState>, site: Span): Bindings
  {
    if snap == [] then env else
    var last := snap[|snap|-1];
    var before := MarkAll(env, snap[..|snap|-1], site);
    if last.moved.Some? then MarkMoved(before, last.name, site) else before
  }

  // ----- The stack -----

  type Scopes = seq<Bindings>

  function Flat(scopes: Scopes): Bindings
  {
    if scopes == [] then [] else Flat(scopes[..|scopes|-1]) + scopes[|scopes|-1]
  }

  function Widths(scopes: Scopes): seq<nat>
  {
    seq(|scopes|, i requires 0 <= i < |scopes| => |scopes[i]|)
  }

  class EscapeContext {
    var scopes: Scopes

    constructor ()
      ensures scopes == [[]]
    {
      scopes := [[]];
    }

    function Depth(): nat
      reads this
    {
      if scopes == [] then 0 else |scopes| - 1
    }

    method PushScope()
      modifies this
      ensures scopes == old(scopes) + [[]] && Flat(scopes) == Flat(old(scopes))
    {
      scopes := scopes + [[]];
    }

    /** The outermost scope is never left. */
    method PopScope()
      modifies this
      ensures scopes == if |old(scopes)| > 1 then old(scopes)[..|old(scopes)|-1] else old(scopes)
    {
      if |scopes| > 1 {
        scopes := scopes[..|scopes|-1];
      }
    }

    method Define(b: Binding)
      requires scopes != []
      modifies this
      ensures Flat(scopes) == Flat(old(scopes)) + [b] && |scopes| == |old(scopes)|
      ensures scopes[..|scopes|-1] == old(scopes[..|scopes|-1])
    {
      var last := |scopes| - 1;
      ghost var before := scopes;
      scopes := scopes[last := scopes[last] + [b]];
      assert scopes[..last] == before[..last];
      assert Flat(scopes) == Flat(before[..last]) + (before[last] + [b]);
    }

    /** Searches the scopes, and each scope, backwards. */
    method FindBinding(name: string) returns (at: Option<(nat, nat)>)
      ensures at.None? ==> Find(Flat(scopes), name).None?
      ensures at.Some? ==>
                && at.value.0 < |scopes| && at.value.1 < |scopes[at.value.0]|
                && Find(Flat(scopes), name) == Some(|Flat(scopes[..at.value.0])| + at.value.1)
                && |Flat(scopes[..at.value.0])| + at.value.1 < |Flat(scopes)|
                && scopes[at.value.0][at.value.1] == Flat(scopes)[|Flat(scopes[..at.value.0])| + at.value.1]
    {
      hide Find, Flat;
      var i := |scopes|;
      assert scopes[..i] == scopes;
      while i > 0
        invariant i <= |scopes| && Find(Flat(scopes), name) == Find(Flat(scopes[..i]), name)
      {
        i := i - 1;
        var j := FindInScope(scopes[i], name);
        FindInScopes(scopes, i, name);
        if j.Some? {
          InFlat(scopes, i, j.value);
          return Some((i, j.value));
        }
      }
      NothingInNoScope(scopes, name);
      at := None;
    }

    method FindInScope(scope: Bindings, name: string) returns (at: Option<nat>)
      ensures at == Find(scope, name)
    {
      var j := |scope|;
      assert scope[..j] == scope;
      while j > 0
        invariant j <= |scope| && Find(scope, name) == Find(scope[..j], name)
      {
        j := j - 1;
        assert scope[..j+1][..j] == scope[..j];
        if scope[j].name == name {
          return Some(j);
        }
      }
      at := None;
    }

    method SetBinding(name: string, moved: Option<Span>)
      modifies this
      ensures Flat(scopes) == SetState(Flat(old(scopes)), name, moved) && Widths(scopes) == Widths(old(scopes))
    {
      var at := FindBinding(name);
      if at.Some? {
        var (i, j) := at.value;
        FlatUpdate(scopes, i, j, scopes[i][j].(moved := moved));
        scopes := scopes[i := scopes[i][j := scopes[i][j].(moved := moved)]];
      }
    }

    method Lookup(name: string) returns (b: Option<Binding>)
      ensures var k := Find(Flat(scopes), name);
              b == if k.Some? then Some(Flat(scopes)[k.value]) else None
    {
      var at := FindBinding(name);
      b := if at.Some? then Some(scopes[at.value.0][at.value.1]) else None;
    }

    method MarkAsMoved(name: string, site: Span)
      modifies this
      ensures Flat(scopes) == MarkMoved(Flat(old(scopes)), name, site) && Widths(scopes) == Widths(old(scopes))
    {
      var b := Lookup(name);
      if b.Some? && b.value.kind == Own {
        SetBinding(name, Some(site));
      }
    }

    method SnapshotMoves() returns (snap: seq<OwnState>)
      ensures snap == Snapshot(Flat(scopes))
    {
      snap := [];
      for i := 0 to |scopes|
        invariant snap == Snapshot(Flat(scopes[..i]))
      {
        var scope := scopes[i];
        ghost var below := Flat(scopes[..i]);
        assert scopes[..i+1][..i] == scopes[..i];
        assert below + scope[..0] == below;
        for j := 0 to |scope|
          invariant snap == Snapshot(below + scope[..j])
        {
          assert (below + scope[..j+1])[..|below| + j] == below + scope[..j];
          if scope[j].kind == Own {
            snap := snap + [OwnState(scope[j].name, scope[j].moved)];
          }
        }
        assert below + scope[..|scope|] == below + scope;
      }
      assert scopes[..|scopes|] == scopes;
    }

    method RestoreSnapshot(snap: seq<OwnState>)
      modifies this
      ensures Flat(scopes) == Restore(Flat(old(scopes)), snap) && Widths(scopes) == Widths(old(scopes))
    {
      for i := 0 to |snap|
        invariant Flat(scopes) == Restore(Flat(old(scopes)), snap[..i]) && Widths(scopes) == Widths(old(scopes))
      {
        assert snap[..i+1][..i] == snap[..i];
        SetBinding(snap[i].name, snap[i].moved);
      }
      assert snap[..|snap|] == snap;
    }
  }

  lemma {:induction false} FindAppend(env: Bindings, scope: Bindings, name: string)
    ensures var k := Find(scope, name);
            Find(env + scope, name) == if k.Some? then Some(|env| + k.value) else Find(env, name)
  {
    if scope == [] {
      assert env + scope == env;
    } else {
      assert (env + scope)[..|env + scope|-1] == env + scope[..|scope|-1];
      FindAppend(env, scope[..|scope|-1], name);
    }
  }

  lemma {:induction false} FindInScopes(scopes: Scopes, i: nat, name: string)
    requires i < |scopes|
    ensures var k := Find(scopes[i], name);
            Find(Flat(scopes[..i+1]), name) ==
            if k.Some? then Some(|Flat(scopes[..i])| + k.value) else Find(Flat(scopes[..i]), name)
  {
    assert scopes[..i+1][..i] == scopes[..i];
    FindAppend(Flat(scopes[..i]), scopes[i], name);
  }

  lemma {:induction false} NothingInNoScope(scopes: Scopes, name: string)
    ensures Find(Flat(scopes[..0]), name).None?
  {
  }

  lemma {:induction false} FlatSplit(scopes: Scopes, i: nat)
    requires i <= |scopes|
    ensures Flat(scopes) == Flat(scopes[..i]) + Flat(scopes[i..])
    decreases |scopes|
  {
    if i == |scopes| {
      assert scopes[..i] == scopes && scopes[i..] == [];
    } else {
      var front := scopes[..|scopes|-1];
      FlatSplit(front, i);
      assert front[..i] == scopes[..i];
      assert scopes[i..][..|scopes|-1-i] == front[i..];
    }
  }

  lemma {:induction false} InFlat(scopes: Scopes, i: nat, j: nat)
    requires i < |scopes| && j < |scopes[i]|
    ensures |Flat(scopes[..i])| + j < |Flat(scopes)|
    ensures Flat(scopes)[|Flat(scopes[..i])| + j] == scopes[i][j]
  {
    FlatSplit(scopes, i + 1);
    assert scopes[..i+1][..i] == scopes[..i];
  }

  lemma {:induction false} FlatUpdate(scopes: Scopes, i: nat, j: nat, b: Binding)
    requires i < |scopes| && j < |scopes[i]|
    ensures |Flat(scopes[..i])| + j < |Flat(scopes)|
    ensures Flat(scopes[i := scopes[i][j := b]]) == Flat(scopes)[|Flat(scopes[..i])| + j := b]
    decreases |scopes|
  {
    InFlat(scopes, i, j);
    var after := scopes[i := scopes[i][j := b]];
    var n := |scopes| - 1;
    if i == n {
      assert after[..n] == scopes[..n];
    } else {
      FlatUpdate(scopes[..n], i, j, b);
      assert after[..n] == scopes[..n][i := scopes[i][j := b]];
      assert scopes[..n][..i] == scopes[..i];
    }
  }

  /** Leaving a scope cuts the row back to where it was when the scope was entered. */
  lemma {:induction false} FlatLength(s: Scopes, t: Scopes)
    requires Widths(s) == Widths(t)
    ensures |Flat(s)| == |Flat(t)|
  {
    assert |s| == |Widths(s)| && |t| == |Widths(t)|;
    if s != [] {
      var n := |s| - 1;
      forall i | 0 <= i < n ensures Widths(s[..n])[i] == Widths(t[..n])[i] {
        assert Widths(s)[i] == Widths(t)[i];
      }
      assert Widths(s)[n] == Widths(t)[n];
      FlatLength(s[..n], t[..n]);
    }
  }
}
