/** Diagnostics: source spans, the diagnostic record, and the sink that merges,
    throttles and counts what the compiler phases emit.
    Message texts and child notes are rendering data and are not modelled. */
module Diag {
  import opened Wrappers

  datatype Span = Span(file: nat, lo: nat, hi: nat)

  datatype Severity = Error | Warning | Note | Help

  datatype Place = Place(file: nat, lo: nat)

  datatype Key = Key(code: nat, place: Place)

  datatype DiagLoc = NoLoc | File(file: nat) | At(span: Span)
  {
    /** Diagnostics are ordered by (file, lo); those without a place come last. */
    function SortKey(): Place
    {
      match this
      case NoLoc => Place(0xFFFF_FFFF, 0xFFFF_FFFF)
      case File(f) => Place(f, 0)
      case At(s) => Place(s.file, s.lo)
    }
  }

  datatype Diagnostic = Diagnostic(severity: Severity, code: nat, loc: DiagLoc, occurrences: nat)
  {
    function DedupKey(): Key { Key(code, loc.SortKey()) }
  }

  function MakeError(code: nat, loc: DiagLoc): Diagnostic { Diagnostic(Error, code, loc, 1) }

  function MakeWarning(code: nat, loc: DiagLoc): Diagnostic { Diagnostic(Warning, code, loc, 1) }

  // ----- The state of a sink, as a value -----

  datatype SinkState = SinkState(
    diags: seq<Diagnostic>, errCount: nat, warnCount: nat, errorLimit: Option<nat>, suppressed: nat)

  function FreshSink(limit: Option<nat>): SinkState { SinkState([], 0, 0, limit, 0) }

  function CountErrors(ds: seq<Diagnostic>): nat
  {
    if ds == [] then 0 else CountErrors(ds[..|ds|-1]) + (if ds[|ds|-1].severity == Error then 1 else 0)
  }

  function CountWarnings(ds: seq<Diagnostic>): nat
  {
    if ds == [] then 0 else CountWarnings(ds[..|ds|-1]) + (if ds[|ds|-1].severity == Warning then 1 else 0)
  }

  function SumOccurrences(ds: seq<Diagnostic>): nat
  {
    if ds == [] then 0 else SumOccurrences(ds[..|ds|-1]) + ds[|ds|-1].occurrences
  }

  /** The position of the first stored diagnostic that has the given key; |ds| if there is none. */
  function FindKey(ds: seq<Diagnostic>, key: Key): (i: nat)
    ensures i <= |ds|
    ensures i < |ds| ==> ds[i].DedupKey() == key
    ensures forall j | 0 <= j < i :: ds[j].DedupKey() != key
  {
    if ds == [] then 0 else if ds[0].DedupKey() == key then 0 else 1 + FindKey(ds[1..], key)
  }

  ghost predicate Throttled(s: SinkState, d: Diagnostic)
  {
    d.severity == Error && s.errorLimit.Some? && s.errorLimit.value <= CountErrors(s.diags)
  }

  ghost function CountStep(s: SinkState, severity: Severity): SinkState
  {
    match severity
    case Error => s.(errCount := s.errCount + 1)
    case Warning => s.(warnCount := s.warnCount + 1)
    case _ => s
  }

  /** Merge into the entry that has the same key, or drop because of the error limit, or store. */
  ghost function StoreStep(s: SinkState, d: Diagnostic): SinkState
  {
    var i := FindKey(s.diags, d.DedupKey());
    if i < |s.diags| then
      s.(diags := s.diags[i := s.diags[i].(occurrences := s.diags[i].occurrences + 1)])
    else if Throttled(s, d) then
      s.(suppressed := s.suppressed + 1)
    else
      s.(diags := s.diags + [d])
  }

  /** One emission: counting always happens, storing may not. */
  ghost function EmitStep(s: SinkState, d: Diagnostic): SinkState
  {
    StoreStep(CountStep(s, d.severity), d)
  }

  ghost function EmitAll(limit: Option<nat>, log: seq<Diagnostic>): SinkState
  {
    if log == [] then FreshSink(limit) else EmitStep(EmitAll(limit, log[..|log|-1]), log[|log|-1])
  }

  lemma {:induction false} EmitAllAppend(limit: Option<nat>, log: seq<Diagnostic>, d: Diagnostic)
    ensures EmitAll(limit, log + [d]) == EmitStep(EmitAll(limit, log), d)
  {
    assert (log + [d])[..|log|] == log;
  }

  lemma {:induction false} FindKeyIsFirst(ds: seq<Diagnostic>, key: Key, i: nat)
    requires i <= |ds|
    requires i < |ds| ==> ds[i].DedupKey() == key
    requires forall j | 0 <= j < i :: ds[j].DedupKey() != key
    ensures FindKey(ds, key) == i
  {
  }

  class DiagSink {
    var diags: seq<Diagnostic>
    var errCount: nat
    var warnCount: nat
    var errorLimit: Option<nat>
    var suppressed: nat
    /** Every diagnostic emitted so far, in order. */
    ghost var log: seq<Diagnostic>

    ghost function View(): SinkState
      reads this
    {
      SinkState(diags, errCount, warnCount, errorLimit, suppressed)
    }

    ghost predicate Valid()
      reads this
    {
      View() == EmitAll(errorLimit, log)
    }

    constructor (limit: Option<nat>)
      ensures Valid() && log == [] && errorLimit == limit
    {
      diags, errCount, warnCount, errorLimit, suppressed := [], 0, 0, limit, 0;
      log := [];
    }

    method StoredErrors() returns (n: nat)
      ensures n == CountErrors(diags)
    {
      n := 0;
      for i := 0 to |diags|
        invariant n == CountErrors(diags[..i])
      {
        assert diags[..i+1][..i] == diags[..i];
        if diags[i].severity == Error {
          n := n + 1;
        }
      }
      assert diags[..|diags|] == diags;
    }

    /** The entry that has the key of `d`, or |diags|. */
    method FindStored(d: Diagnostic) returns (i: nat)
      ensures i == FindKey(diags, d.DedupKey())
    {
      i := 0;
      while i < |diags| && diags[i].DedupKey() != d.DedupKey()
        invariant i <= |diags|
        invariant forall j | 0 <= j < i :: diags[j].DedupKey() != d.DedupKey()
      {
        i := i + 1;
      }
      FindKeyIsFirst(diags, d.DedupKey(), i);
    }

    method Count(severity: Severity)
      modifies `errCount, `warnCount
      ensures View() == CountStep(old(View()), severity)
    {
      match severity {
        case Error => errCount := errCount + 1;
        case Warning => warnCount := warnCount + 1;
        case _ =>
      }
    }

    /** Merge, throttle or store; the counters have already been updated. */
    method Record(d: Diagnostic)
      modifies `diags, `suppressed
      ensures View() == StoreStep(old(View()), d)
    {
      var i := FindStored(d);
      if i < |diags| {
        diags := diags[i := diags[i].(occurrences := diags[i].occurrences + 1)];
        return;
      }
      var stored := StoredErrors();
      if d.severity == Error && errorLimit.Some? && stored >= errorLimit.value {
        suppressed := suppressed + 1;
      } else {
        diags := diags + [d];
      }
    }

    method Emit(d: Diagnostic)
      requires Valid()
      modifies this
      ensures Valid() && errorLimit == old(errorLimit)
      ensures log == old(log) + [d]
      ensures View() == EmitStep(old(View()), d)
    {
      ghost var before := View();
      Count(d.severity);
      assert View() == CountStep(before, d.severity);
      Record(d);
      assert View() == EmitStep(before, d);
      EmitAllAppend(errorLimit, log, d);
      log := log + [d];
    }

    /** The stored diagnostics ordered by place; equal places keep the order of emission. */
    method Finish() returns (out: seq<Diagnostic>)
      ensures SortedByPlace(out)
      ensures multiset(out) == multiset(diags)
      ensures forall k :: AtPlace(out, k) == AtPlace(diags, k)
    {
      out := StableSort(diags);
      StableSortSorts(diags);
    }
  }

  // ----- Conservation over whole runs -----

  lemma {:induction false} CountErrorsUpdate(ds: seq<Diagnostic>, i: nat, n: nat)
    requires i < |ds|
    ensures CountErrors(ds[i := ds[i].(occurrences := n)]) == CountErrors(ds)
  {
    var es := ds[i := ds[i].(occurrences := n)];
    if i == |ds| - 1 {
      assert es[..|ds|-1] == ds[..|ds|-1];
    } else {
      assert es[..|ds|-1] == ds[..|ds|-1][i := ds[i].(occurrences := n)];
      CountErrorsUpdate(ds[..|ds|-1], i, n);
    }
  }

  lemma {:induction false} SumOccurrencesUpdate(ds: seq<Diagnostic>, i: nat, n: nat)
    requires i < |ds|
    ensures SumOccurrences(ds[i := ds[i].(occurrences := n)]) == SumOccurrences(ds) - ds[i].occurrences + n
  {
    var es := ds[i := ds[i].(occurrences := n)];
    if i == |ds| - 1 {
      assert es[..|ds|-1] == ds[..|ds|-1];
    } else {
      assert es[..|ds|-1] == ds[..|ds|-1][i := ds[i].(occurrences := n)];
      SumOccurrencesUpdate(ds[..|ds|-1], i, n);
    }
  }

  ghost predicate DistinctKeys(ds: seq<Diagnostic>)
  {
    forall i, j | 0 <= i < j < |ds| :: ds[i].DedupKey() != ds[j].DedupKey()
  }

  lemma {:induction false} StoreStepConserves(s: SinkState, d: Diagnostic)
    requires d.occurrences == 1
    ensures var t := StoreStep(s, d);
            SumOccurrences(t.diags) + t.suppressed == SumOccurrences(s.diags) + s.suppressed + 1
  {
    hide Throttled, CountErrors;
    var i := FindKey(s.diags, d.DedupKey());
    if i < |s.diags| {
      SumOccurrencesUpdate(s.diags, i, s.diags[i].occurrences + 1);
    } else if !Throttled(s, d) {
      assert (s.diags + [d])[..|s.diags|] == s.diags;
    }
  }

  /** Nothing is lost: however the emissions were merged or throttled, the stored occurrences and
      the suppressed count add up to the number of emissions. */
  lemma {:induction false} EmissionsAreConserved(limit: Option<nat>, log: seq<Diagnostic>)
    requires forall i | 0 <= i < |log| :: log[i].occurrences == 1
    ensures var s := EmitAll(limit, log); SumOccurrences(s.diags) + s.suppressed == |log|
  {
    if log != [] {
      EmissionsAreConserved(limit, log[..|log|-1]);
      var d := log[|log|-1];
      hide StoreStep, SumOccurrences;
      StoreStepConserves(CountStep(EmitAll(limit, log[..|log|-1]), d.severity), d);
    }
  }

  /** The gate that stops later phases sees every error and warning, whatever was merged or throttled. */
  lemma {:induction false} GateCountsEverything(limit: Option<nat>, log: seq<Diagnostic>)
    ensures var s := EmitAll(limit, log);
            s.errCount == CountErrors(log) && s.warnCount == CountWarnings(log)
  {
    if log != [] {
      GateCountsEverything(limit, log[..|log|-1]);
    }
  }

  ghost predicate Bounded(s: SinkState)
  {
    && DistinctKeys(s.diags)
    && (s.errorLimit.Some? ==> CountErrors(s.diags) <= s.errorLimit.value)
    && (s.suppressed > 0 ==> s.errorLimit.Some? && CountErrors(s.diags) == s.errorLimit.value)
  }

  lemma {:induction false} StoreStepKeepsKeysDistinct(s: SinkState, d: Diagnostic)
    requires DistinctKeys(s.diags)
    ensures DistinctKeys(StoreStep(s, d).diags)
  {
    var t := StoreStep(s, d).diags;
    forall i, j | 0 <= i < j < |t| ensures t[i].DedupKey() != t[j].DedupKey() {
      assert t[i].DedupKey() == s.diags[i].DedupKey();
      assert j < |s.diags| ==> t[j].DedupKey() == s.diags[j].DedupKey();
    }
  }

  lemma {:induction false} StoreStepCountsErrors(s: SinkState, d: Diagnostic)
    ensures CountErrors(StoreStep(s, d).diags) ==
            CountErrors(s.diags) + |StoreStep(s, d).diags[|s.diags|..]| * (if d.severity == Error then 1 else 0)
  {
    var i, t := FindKey(s.diags, d.DedupKey()), StoreStep(s, d).diags;
    if i < |s.diags| {
      CountErrorsUpdate(s.diags, i, s.diags[i].occurrences + 1);
    } else if !Throttled(s, d) {
      assert t[..|s.diags|] == s.diags;
    }
  }

  lemma {:induction false} StoreStepStaysBounded(s: SinkState, d: Diagnostic)
    requires Bounded(s)
    ensures Bounded(StoreStep(s, d))
  {
    StoreStepKeepsKeysDistinct(s, d);
    StoreStepCountsErrors(s, d);
  }

  lemma {:induction false} EmitStepStaysBounded(s: SinkState, d: Diagnostic)
    requires Bounded(s)
    ensures Bounded(EmitStep(s, d)) && EmitStep(s, d).errorLimit == s.errorLimit
  {
    StoreStepStaysBounded(CountStep(s, d.severity), d);
  }

  /** Stored keys are pairwise distinct and the stored errors never exceed the limit; an error is
      only ever suppressed when the limit has been used up. */
  lemma {:induction false} StoreIsBounded(limit: Option<nat>, log: seq<Diagnostic>)
    ensures EmitAll(limit, log).errorLimit == limit
    ensures Bounded(EmitAll(limit, log))
  {
    if log == [] {
      assert EmitAll(limit, log) == FreshSink(limit);
    } else {
      var front, d := log[..|log|-1], log[|log|-1];
      StoreIsBounded(limit, front);
      assert EmitAll(limit, log) == EmitStep(EmitAll(limit, front), d);
      EmitStepStaysBounded(EmitAll(limit, front), d);
    }
  }

  // ----- Which emissions an entry stands for -----

  /** No place at all, or the same file and the same start; a whole file starts at 0. */
  predicate SamePlace(a: DiagLoc, b: DiagLoc)
  {
    match (a, b)
    case (NoLoc, NoLoc) => true
    case (File(f), File(g)) => f == g
    case (File(f), At(s)) => s.file == f && s.lo == 0
    case (At(s), File(f)) => s.file == f && s.lo == 0
    case (At(s), At(t)) => s.file == t.file && s.lo == t.lo
    case _ => false
  }

  predicate SameReport(d: Diagnostic, e: Diagnostic) { d.code == e.code && SamePlace(d.loc, e.loc) }

  /** File numbers and offsets have 32 bits; the largest of both together stands for no place. */
  predicate Standing(d: Diagnostic)
  {
    match d.loc
    case NoLoc => true
    case File(f) => f <= 0xFFFF_FFFF
    case At(s) => s.file <= 0xFFFF_FFFF && s.lo <= 0xFFFF_FFFF && !(s.file == s.lo == 0xFFFF_FFFF)
  }

  ghost predicate AllStanding(log: seq<Diagnostic>) { forall d | d in log :: Standing(d) && d.occurrences == 1 }

  lemma {:induction false} SameKeyIsSameReport(d: Diagnostic, e: Diagnostic)
    requires Standing(d) && Standing(e)
    ensures d.DedupKey() == e.DedupKey() <==> SameReport(d, e)
  {
  }

  function CountLike(log: seq<Diagnostic>, d: Diagnostic): nat
  {
    if log == [] then 0 else CountLike(log[..|log|-1], d) + (if SameReport(log[|log|-1], d) then 1 else 0)
  }

  /** What the entries for such reports count together. */
  function StoredLike(ds: seq<Diagnostic>, d: Diagnostic): nat
  {
    if ds == [] then 0
    else StoredLike(ds[..|ds|-1], d) + (if SameReport(ds[|ds|-1], d) then ds[|ds|-1].occurrences else 0)
  }

  /** How many such reports the error limit has swallowed. */
  ghost function DroppedLike(limit: Option<nat>, log: seq<Diagnostic>, d: Diagnostic): nat
  {
    if log == [] then 0 else
    var front, last := log[..|log|-1], log[|log|-1];
    DroppedLike(limit, front, d) +
    (if SameReport(last, d) && EmitAll(limit, front).suppressed < EmitAll(limit, log).suppressed then 1 else 0)
  }

  lemma {:induction false} StoredLikeUpdate(ds: seq<Diagnostic>, i: nat, n: nat, d: Diagnostic)
    requires i < |ds|
    ensures StoredLike(ds[i := ds[i].(occurrences := n)], d) ==
            StoredLike(ds, d) + (if SameReport(ds[i], d) then n - ds[i].occurrences else 0)
  {
    var es := ds[i := ds[i].(occurrences := n)];
    if i == |ds| - 1 {
      assert es[..|ds|-1] == ds[..|ds|-1];
    } else {
      assert es[..|ds|-1] == ds[..|ds|-1][i := ds[i].(occurrences := n)];
      StoredLikeUpdate(ds[..|ds|-1], i, n, d);
    }
  }

  lemma {:induction false} SameReportTrans(d: Diagnostic, e: Diagnostic, f: Diagnostic)
    requires SameReport(d, e)
    ensures SameReport(e, d) && (SameReport(d, f) <==> SameReport(e, f))
  {
  }

  ghost predicate StoresStanding(ds: seq<Diagnostic>) { forall d | d in ds :: Standing(d) }

  lemma {:induction false} StoreStepCounts(s: SinkState, e: Diagnostic, d: Diagnostic)
    requires StoresStanding(s.diags) && Standing(e) && e.occurrences == 1
    ensures var t := StoreStep(s, e);
            && StoresStanding(t.diags) && s.suppressed <= t.suppressed
            && StoredLike(t.diags, d) ==
               StoredLike(s.diags, d) + (if SameReport(e, d) && t.suppressed == s.suppressed then 1 else 0)
  {
    hide Throttled, Standing;
    var i := FindKey(s.diags, e.DedupKey());
    if i < |s.diags| {
      StoredLikeUpdate(s.diags, i, s.diags[i].occurrences + 1, d);
      SameKeyIsSameReport(s.diags[i], e);
      SameReportTrans(s.diags[i], e, d);
      PlacedUpdate(s.diags, i, s.diags[i].occurrences + 1);
    } else if !Throttled(s, e) {
      assert (s.diags + [e])[..|s.diags|] == s.diags;
    }
  }

  lemma {:induction false} PlacedUpdate(ds: seq<Diagnostic>, i: nat, n: nat)
    requires i < |ds| && StoresStanding(ds)
    ensures StoresStanding(ds[i := ds[i].(occurrences := n)])
  {
    var es := ds[i := ds[i].(occurrences := n)];
    forall d | d in es ensures Standing(d) {
      var k :| 0 <= k < |es| && es[k] == d;
      assert ds[k] in ds;
    }
  }

  /** For every code and place: what its entries count and what the limit has swallowed of it are, together,
      all the emissions of that code at that place, and of no other. */
  lemma {:induction false} ReportsAreKept(limit: Option<nat>, log: seq<Diagnostic>, d: Diagnostic)
    requires AllStanding(log)
    ensures StoresStanding(EmitAll(limit, log).diags)
    ensures StoredLike(EmitAll(limit, log).diags, d) + DroppedLike(limit, log, d) == CountLike(log, d)
  {
    if log == [] {
      assert EmitAll(limit, log) == FreshSink(limit);
    } else {
      var front, last := log[..|log|-1], log[|log|-1];
      ReportsAreKept(limit, front, d);
      hide StoreStep, SameReport, StoredLike, StoresStanding, Standing;
      StoreStepCounts(CountStep(EmitAll(limit, front), last.severity), last, d);
    }
  }

  /** Different entries are different reports. */
  lemma {:induction false} OneEntryEach(limit: Option<nat>, log: seq<Diagnostic>, i: nat, j: nat)
    requires AllStanding(log) && i < j < |EmitAll(limit, log).diags|
    ensures !SameReport(EmitAll(limit, log).diags[i], EmitAll(limit, log).diags[j])
  {
    var ds := EmitAll(limit, log).diags;
    ReportsAreKept(limit, log, ds[i]);
    StoreIsBounded(limit, log);
    hide EmitAll, Standing, SameReport;
    SameKeyIsSameReport(ds[i], ds[j]);
  }

  lemma {:induction false} OnlyEntryCounts(ds: seq<Diagnostic>, i: nat, d: Diagnostic)
    requires i < |ds| && SameReport(ds[i], d)
    requires forall j | 0 <= j < |ds| && j != i :: !SameReport(ds[j], d)
    ensures StoredLike(ds, d) == ds[i].occurrences
  {
    if i == |ds| - 1 {
      NoEntryCounts(ds[..i], d);
    } else {
      OnlyEntryCounts(ds[..|ds|-1], i, d);
    }
  }

  lemma {:induction false} NoEntryCounts(ds: seq<Diagnostic>, d: Diagnostic)
    requires forall j | 0 <= j < |ds| :: !SameReport(ds[j], d)
    ensures StoredLike(ds, d) == 0
  {
    if ds != [] {
      NoEntryCounts(ds[..|ds|-1], d);
    }
  }

  /** So an entry counts the emissions of its code at its place, less those swallowed before it was stored. */
  lemma {:induction false} OccurrencesCount(limit: Option<nat>, log: seq<Diagnostic>, i: nat)
    requires AllStanding(log) && i < |EmitAll(limit, log).diags|
    ensures var d := EmitAll(limit, log).diags[i];
            d.occurrences + DroppedLike(limit, log, d) == CountLike(log, d)
  {
    var ds := EmitAll(limit, log).diags;
    ReportsAreKept(limit, log, ds[i]);
    hide EmitAll, DroppedLike, CountLike, StoredLike;
    forall j | 0 <= j < |ds| && j != i ensures !SameReport(ds[j], ds[i]) {
      if j < i {
        OneEntryEach(limit, log, j, i);
      } else {
        OneEntryEach(limit, log, i, j);
        if SameReport(ds[j], ds[i]) {
          SameReportTrans(ds[j], ds[i], ds[j]);
        }
      }
    }
    SelfReport(ds[i]);
    OnlyEntryCounts(ds, i, ds[i]);
  }

  lemma {:induction false} SelfReport(d: Diagnostic)
    ensures SameReport(d, d)
  {
  }

  lemma {:induction false} NothingDropped(log: seq<Diagnostic>, d: Diagnostic)
    ensures DroppedLike(None, log, d) == 0
  {
    if log != [] {
      NothingDropped(log[..|log|-1], d);
      StoreIsBounded(None, log);
      hide EmitAll;
    }
  }

  lemma {:induction false} CountedOnce(log: seq<Diagnostic>, d: Diagnostic)
    requires d in log
    ensures CountLike(log, d) > 0
  {
    SelfReport(d);
    if d != log[|log|-1] {
      assert log == log[..|log|-1] + [log[|log|-1]];
      CountedOnce(log[..|log|-1], d);
    }
  }

  lemma {:induction false} CountedIsStored(ds: seq<Diagnostic>, d: Diagnostic)
    requires StoredLike(ds, d) > 0
    ensures exists i :: 0 <= i < |ds| && SameReport(ds[i], d)
  {
    if forall i | 0 <= i < |ds| :: !SameReport(ds[i], d) {
      NoEntryCounts(ds, d);
    }
  }

  /** Without a limit every emission has its entry, and an entry counts exactly the emissions of its code at
      its place. */
  lemma {:induction false} UnlimitedKeepsAll(log: seq<Diagnostic>)
    requires AllStanding(log)
    ensures var ds := EmitAll(None, log).diags;
            && (forall i | 0 <= i < |ds| :: ds[i].occurrences == CountLike(log, ds[i]))
            && forall d | d in log :: exists i :: 0 <= i < |ds| && SameReport(ds[i], d)
  {
    var ds := EmitAll(None, log).diags;
    hide EmitAll, DroppedLike, CountLike, StoredLike, SameReport;
    forall i | 0 <= i < |ds| ensures ds[i].occurrences == CountLike(log, ds[i]) {
      OccurrencesCount(None, log, i);
      NothingDropped(log, ds[i]);
    }
    forall d | d in log ensures exists i :: 0 <= i < |ds| && SameReport(ds[i], d) {
      ReportsAreKept(None, log, d);
      NothingDropped(log, d);
      CountedOnce(log, d);
      CountedIsStored(ds, d);
    }
  }

  lemma {:induction false} LimitStaysReached(s: SinkState, e: Diagnostic)
    ensures CountErrors(s.diags) <= CountErrors(StoreStep(s, e).diags)
  {
    StoreStepCountsErrors(s, e);
  }

  /** What a step leaves of an entry, and that a report with an entry is not swallowed. */
  lemma {:induction false} StepKeepsEntry(s: SinkState, e: Diagnostic, i: nat)
    requires i < |s.diags|
    ensures var t := StoreStep(s, e);
            && i < |t.diags| && t.diags[i] == s.diags[i].(occurrences := t.diags[i].occurrences)
            && (s.diags[i].DedupKey() == e.DedupKey() ==> t.suppressed == s.suppressed)
  {
    hide Throttled;
  }

  lemma {:induction false} StepStores(s: SinkState, e: Diagnostic, i: nat)
    requires |s.diags| <= i < |StoreStep(s, e).diags|
    ensures StoreStep(s, e).diags[i] == e && !Throttled(s, e) && StoreStep(s, e).suppressed == s.suppressed
  {
  }

  /** Of a stored error nothing has been swallowed: the limit that swallows one is still reached later, and
      then no error is stored. */
  lemma {:induction false} StoredErrorIsWhole(limit: Option<nat>, log: seq<Diagnostic>, i: nat)
    requires AllStanding(log) && i < |EmitAll(limit, log).diags|
    requires EmitAll(limit, log).diags[i].severity == Error
    ensures DroppedLike(limit, log, EmitAll(limit, log).diags[i]) == 0
  {
    if log != [] {
      var front, last := log[..|log|-1], log[|log|-1];
      var s, t := EmitAll(limit, front), EmitAll(limit, log);
      var d, counted := t.diags[i], CountStep(s, last.severity);
      ReportsAreKept(limit, front, d);
      assert t == StoreStep(counted, last) && counted.diags == s.diags && counted.suppressed == s.suppressed;
      hide EmitAll, StoreStep, Standing, SameReport, CountErrors, CountLike, StoredLike;
      if i < |s.diags| {
        StepKeepsEntry(counted, last, i);
        StoredErrorIsWhole(limit, front, i);
        DroppedOfSame(limit, front, s.diags[i], d);
        assert Standing(s.diags[i]);
        EntryOf(s.diags[i], d, last);
      } else {
        StepStores(counted, last, i);
        NewErrorIsFirst(limit, front, last);
      }
    }
  }

  /** Only errors are swallowed, and only when as many are stored as the limit allows. */
  lemma {:induction false} OnlyErrorsAreDropped(limit: Option<nat>, log: seq<Diagnostic>, d: Diagnostic)
    ensures EmitStep(EmitAll(limit, log), d).suppressed > EmitAll(limit, log).suppressed ==>
              d.severity == Error && limit.Some? && limit.value == CountErrors(EmitAll(limit, log).diags)
  {
    var s := EmitAll(limit, log);
    StoreIsBounded(limit, log);
    hide EmitAll, CountErrors;
  }

  lemma {:induction false} EntryOf(entry: Diagnostic, d: Diagnostic, e: Diagnostic)
    requires d.code == entry.code && d.loc == entry.loc && Standing(entry) && Standing(e)
    ensures SameReport(e, d) ==> entry.DedupKey() == e.DedupKey()
  {
    SameKeyIsSameReport(entry, e);
  }

  lemma {:induction false} DroppedOfSame(limit: Option<nat>, log: seq<Diagnostic>, d: Diagnostic, e: Diagnostic)
    requires d.code == e.code && d.loc == e.loc
    ensures DroppedLike(limit, log, d) == DroppedLike(limit, log, e)
  {
    hide EmitAll;
    if log != [] {
      DroppedOfSame(limit, log[..|log|-1], d, e);
    }
  }

  /** An error that can still be stored has not been swallowed before. */
  lemma {:induction false} NewErrorIsFirst(limit: Option<nat>, log: seq<Diagnostic>, d: Diagnostic)
    requires !Throttled(EmitAll(limit, log), d) && d.severity == Error
    ensures DroppedLike(limit, log, d) == 0
  {
    if log != [] {
      var front, last := log[..|log|-1], log[|log|-1];
      StoreIsBounded(limit, front);
      StoreIsBounded(limit, log);
      LimitStaysReached(CountStep(EmitAll(limit, front), last.severity), last);
      NewErrorIsFirst(limit, front, d);
    }
  }

  // ----- The final ordering -----

  predicate KeyLeq(a: Place, b: Place) { a.file < b.file || (a.file == b.file && a.lo <= b.lo) }

  predicate PlaceLeq(a: Diagnostic, b: Diagnostic) { KeyLeq(a.loc.SortKey(), b.loc.SortKey()) }

  ghost predicate SortedByPlace(ds: seq<Diagnostic>)
  {
    forall i, j | 0 <= i < j < |ds| :: PlaceLeq(ds[i], ds[j])
  }

  /** The subsequence of diagnostics that share one sort key. */
  function AtPlace(ds: seq<Diagnostic>, key: Place): seq<Diagnostic>
  {
    if ds == [] then []
    else (if ds[0].loc.SortKey() == key then [ds[0]] else []) + AtPlace(ds[1..], key)
  }

  function InsertByPlace(d: Diagnostic, ds: seq<Diagnostic>): seq<Diagnostic>
  {
    if ds == [] || PlaceLeq(d, ds[0]) then [d] + ds
    else [ds[0]] + InsertByPlace(d, ds[1..])
  }

  /** Stands for the library's stable sort by key. */
  function StableSort(ds: seq<Diagnostic>): seq<Diagnostic>
  {
    if ds == [] then [] else InsertByPlace(ds[0], StableSort(ds[1..]))
  }

  lemma {:induction false} InsertKeepsElements(d: Diagnostic, ds: seq<Diagnostic>)
    ensures multiset(InsertByPlace(d, ds)) == multiset{d} + multiset(ds)
  {
    if !(ds == [] || PlaceLeq(d, ds[0])) {
      InsertKeepsElements(d, ds[1..]);
      assert ds == [ds[0]] + ds[1..];
    }
  }

  lemma {:induction false} SortedCons(d: Diagnostic, ds: seq<Diagnostic>)
    requires SortedByPlace(ds)
    requires forall x | x in ds :: PlaceLeq(d, x)
    ensures SortedByPlace([d] + ds)
  {
    var r := [d] + ds;
    forall i, j | 0 <= i < j < |r| ensures PlaceLeq(r[i], r[j]) {
      assert r[j] == ds[j-1];
    }
  }

  lemma {:induction false} InsertKeepsOrder(d: Diagnostic, ds: seq<Diagnostic>)
    requires SortedByPlace(ds)
    ensures SortedByPlace(InsertByPlace(d, ds))
  {
    if ds == [] || PlaceLeq(d, ds[0]) {
      forall x | x in ds ensures PlaceLeq(d, x) {
        assert PlaceLeq(ds[0], x);
      }
      SortedCons(d, ds);
    } else {
      var tail, r := ds[1..], InsertByPlace(d, ds[1..]);
      InsertKeepsOrder(d, tail);
      InsertKeepsElements(d, tail);
      forall x | x in r ensures PlaceLeq(ds[0], x) {
        assert x in multiset(r);
        assert x == d || x in tail;
      }
      SortedCons(ds[0], r);
    }
  }

  lemma {:induction false} InsertIsStable(d: Diagnostic, ds: seq<Diagnostic>, k: Place)
    ensures AtPlace(InsertByPlace(d, ds), k) == AtPlace([d] + ds, k)
  {
    assert ([d] + ds)[1..] == ds;
    if !(ds == [] || PlaceLeq(d, ds[0])) {
      var r := InsertByPlace(d, ds[1..]);
      InsertIsStable(d, ds[1..], k);
      assert ([ds[0]] + r)[1..] == r;
      assert ([d] + ds[1..])[1..] == ds[1..];
    }
  }

  lemma {:induction false} StableSortSorts(ds: seq<Diagnostic>)
    ensures SortedByPlace(StableSort(ds))
    ensures multiset(StableSort(ds)) == multiset(ds)
    ensures forall k :: AtPlace(StableSort(ds), k) == AtPlace(ds, k)
  {
    if ds != [] {
      StableSortSorts(ds[1..]);
      var rest := StableSort(ds[1..]);
      InsertKeepsOrder(ds[0], rest);
      InsertKeepsElements(ds[0], rest);
      assert ds == [ds[0]] + ds[1..];
      forall k ensures AtPlace(StableSort(ds), k) == AtPlace(ds, k) {
        InsertIsStable(ds[0], rest, k);
        assert ([ds[0]] + rest)[1..] == rest;
      }
    }
  }

  /** In the order of files, in a file in the order of starts, and what has no place comes last. */
  predicate Ordered(a: DiagLoc, b: DiagLoc)
  {
    match (a, b)
    case (_, NoLoc) => true
    case (NoLoc, _) => false
    case (File(f), File(g)) => f <= g
    case (File(f), At(s)) => f <= s.file
    case (At(s), File(f)) => s.file < f || (s.file == f && s.lo == 0)
    case (At(s), At(t)) => s.file < t.file || (s.file == t.file && s.lo <= t.lo)
  }

  lemma {:induction false} SortedIsOrdered(ds: seq<Diagnostic>, i: nat, j: nat)
    requires SortedByPlace(ds) && StoresStanding(ds) && i < j < |ds|
    ensures Ordered(ds[i].loc, ds[j].loc)
  {
    assert PlaceLeq(ds[i], ds[j]) && Standing(ds[i]) && Standing(ds[j]);
  }
}
