/**
 Crash recovery of incremental dbt builds. Each tracked model has a persisted marker saying that a build
 was under way. An ordinary build first rebuilds every marked model in its scope from scratch, then marks
 the scope, runs dbt, and clears the markers; it may fail or be cancelled between any two steps. What dbt
 writes is its own selection, which need not be the scope. The results say exactly which builds, cut where,
 keep every table that may be half-written marked, over every sequence of builds, and exactly when an
 incremental run starts on whole tables only.
 */
module DbtBuild {

  type Model = string

  /** Markers that are set, tables that may be half-written, and tables dbt is writing right now. */
  datatype Disk = Disk(marked: set<Model>, torn: set<Model>, writing: set<Model>)

  /** A dbt run that ends normally leaves whole tables if it started from whole ones or from scratch. */
  datatype Action =
    | Mark(model: Model) | Clear(model: Model)
    | Begin(models: set<Model>, refresh: bool) | End(models: set<Model>, refresh: bool)

  function Do(d: Disk, a: Action): Disk {
    match a
    case Mark(m) => d.(marked := d.marked + {m})
    case Clear(m) => d.(marked := d.marked - {m})
    case Begin(models, _) => d.(writing := models)
    case End(models, refresh) => d.(writing := {}, torn := if refresh then d.torn - models else d.torn)
  }

  /** Whatever dbt was writing may be half-written. */
  function Crash(d: Disk): Disk {
    d.(torn := d.torn + d.writing, writing := {})
  }

  function Run(d: Disk, actions: seq<Action>): Disk
    decreases actions
  {
    if actions == [] then d else Run(Do(d, actions[0]), actions[1..])
  }

  /** The run is cut after the given number of actions, or ends by itself. */
  function Interrupted(d: Disk, actions: seq<Action>, steps: nat): Disk {
    if steps < |actions| then Crash(Run(d, actions[..steps])) else Run(d, actions)
  }

  // ---- what a build does ----

  function Refresh(m: Model): seq<Action> {
    [Begin({m}, true), End({m}, true), Clear(m)]
  }

  /** Recovery goes through the scope in order and reads each marker when its turn comes. */
  function Recovery(scope: seq<Model>, marked: set<Model>): seq<Action> {
    if scope == [] then []
    else if scope[0] in marked then Refresh(scope[0]) + Recovery(scope[1..], marked - {scope[0]})
    else Recovery(scope[1..], marked)
  }

  function Marks(scope: seq<Model>): seq<Action> {
    if scope == [] then [] else [Mark(scope[0])] + Marks(scope[1..])
  }

  function Clears(scope: seq<Model>): seq<Action> {
    if scope == [] then [] else [Clear(scope[0])] + Clears(scope[1..])
  }

  function Models(scope: seq<Model>): set<Model> {
    set m | m in scope
  }

  function Incremental(writes: set<Model>): seq<Action> {
    [Begin(writes, false), End(writes, false)]
  }

  /** What an ordinary build does before it starts dbt. */
  function Preparation(scope: seq<Model>, marked: set<Model>): seq<Action> {
    Recovery(scope, marked) + Marks(scope)
  }

  /** The scope is marked and cleared; dbt writes whatever it selects. */
  function OrdinaryPlan(scope: seq<Model>, writes: set<Model>, marked: set<Model>): seq<Action> {
    Preparation(scope, marked) + (Incremental(writes) + Clears(scope))
  }

  /** A full-refresh build neither reads nor sets nor clears a marker. */
  function RefreshPlan(models: set<Model>): seq<Action> {
    [Begin(models, true), End(models, true)]
  }

  lemma {:induction false} RunJoins(d: Disk, a: seq<Action>, b: seq<Action>)
    ensures Run(d, a + b) == Run(Run(d, a), b)
    decreases a
  {
    if a == [] {
      assert a + b == b;
    } else {
      RunJoins(Do(d, a[0]), a[1..], b);
      assert (a + b)[0] == a[0] && (a + b)[1..] == a[1..] + b;
    }
  }

  lemma {:induction false} OneMore(d: Disk, done: seq<Action>, a: Action)
    ensures Run(d, done + [a]) == Do(Run(d, done), a)
  {
    RunJoins(d, done, [a]);
    assert [a][1..] == [];
  }

  /** The persisted markers and tables of one warehouse. */
  class Warehouse {
    var marked: set<Model>
    var torn: set<Model>
    var writing: set<Model>

    function Contents(): Disk
      reads this
    {
      Disk(marked, torn, writing)
    }

    constructor ()
      ensures Contents() == Disk({}, {}, {})
    {
      marked, torn, writing := {}, {}, {};
    }

    /** One action, if the build is not cut before it; a cut leaves the warehouse as a crash does. */
    method Step(a: Action, left: nat) returns (done: bool, left': nat)
      modifies this
      ensures done <==> left > 0
      ensures done ==> Contents() == Do(old(Contents()), a) && left' == left - 1
      ensures !done ==> Contents() == Crash(old(Contents())) && left' == 0
    {
      if left == 0 {
        torn, writing := torn + writing, {};
        return false, 0;
      }
      match a {
        case Mark(m) => marked := marked + {m};
        case Clear(m) => marked := marked - {m};
        case Begin(models, _) => writing := models;
        case End(models, refresh) =>
          writing := {};
          if refresh { torn := torn - models; }
      }
      return true, left - 1;
    }

    /** Performs a list of actions until it ends or the cut comes. */
    method Perform(actions: seq<Action>, left: nat) returns (done: bool, left': nat)
      modifies this
      ensures done <==> left >= |actions|
      ensures Contents() == Interrupted(old(Contents()), actions, left)
      ensures done ==> left' == left - |actions|
    {
      left' := left;
      var i := 0;
      while i < |actions|
        invariant 0 <= i <= |actions| && left == left' + i
        invariant Contents() == Run(old(Contents()), actions[..i])
      {
        done, left' := Step(actions[i], left');
        if !done {
          return;
        }
        OneMore(old(Contents()), actions[..i], actions[i]);
        assert actions[..i + 1] == actions[..i] + [actions[i]];
        i := i + 1;
      }
      assert actions[..i] == actions;
      done := true;
    }

    /** Recovery: the marker of each model in the scope is read in turn, and a set one forces a rebuild. */
    method Recover(scope: seq<Model>, left: nat) returns (done: bool, left': nat)
      modifies this
      ensures done <==> left >= |Recovery(scope, old(marked))|
      ensures Contents() == Interrupted(old(Contents()), Recovery(scope, old(marked)), left)
      ensures done ==> left' == left - |Recovery(scope, old(marked))|
    {
      left' := left;
      var i := 0;
      ghost var before, all := Contents(), Recovery(scope, marked);
      ghost var past: seq<Action> := [];
      assert scope[0..] == scope;
      while i < |scope|
        invariant 0 <= i <= |scope| && left == left' + |past|
        invariant all == past + Recovery(scope[i..], marked)
        invariant Contents() == Run(before, past)
      {
        assert scope[i..][0] == scope[i] && scope[i..][1..] == scope[i + 1..];
        if scope[i] in marked {
          ghost var now := Contents();
          ghost var rest := Recovery(scope[i + 1..], marked - {scope[i]});
          var budget := left';
          done, left' := Perform(Refresh(scope[i]), budget);
          CutWithin(before, past, Refresh(scope[i]), rest, budget);
          if !done {
            return;
          }
          RefreshEffect(now, scope[i]);
          RunJoins(before, past, Refresh(scope[i]));
          past := past + Refresh(scope[i]);
        }
        i := i + 1;
      }
      assert past + Recovery([], marked) == past;
      done := true;
    }

    /** An ordinary build, cut after `steps` actions. */
    method Build(scope: seq<Model>, writes: set<Model>, steps: nat) returns (completed: bool)
      modifies this
      ensures completed <==> steps >= |OrdinaryPlan(scope, writes, old(marked))|
      ensures Contents() == Interrupted(old(Contents()), OrdinaryPlan(scope, writes, old(marked)), steps)
    {
      ghost var before := Contents();
      ghost var recovery, rest := Recovery(scope, marked), Marks(scope) + (Incremental(writes) + Clears(scope));
      assert OrdinaryPlan(scope, writes, marked) == recovery + rest;
      var left;
      completed, left := Recover(scope, steps);
      CutInFirst(before, recovery, rest, steps);
      if !completed {
        return;
      }
      completed, left := Perform(Marks(scope) + (Incremental(writes) + Clears(scope)), left);
    }

    /** A full-refresh build of the given tables, cut after `steps` actions. */
    method FullRefresh(models: set<Model>, steps: nat) returns (completed: bool)
      modifies this
      ensures completed <==> steps >= 2
      ensures Contents() == Interrupted(old(Contents()), RefreshPlan(models), steps)
    {
      var left;
      completed, left := Perform(RefreshPlan(models), steps);
    }
  }

  /** Cutting a joined list: in the first part, or in the second with what is left of the budget. */
  lemma {:induction false} CutInFirst(d: Disk, a: seq<Action>, b: seq<Action>, steps: nat)
    ensures steps < |a| ==> Interrupted(d, a + b, steps) == Interrupted(d, a, steps)
    ensures steps >= |a| ==> Interrupted(d, a + b, steps) == Interrupted(Run(d, a), b, steps - |a|)
  {
    var all := a + b;
    if steps < |a| {
      assert all[..steps] == a[..steps];
    } else if steps < |all| {
      assert all[..steps] == a + b[..steps - |a|];
      RunJoins(d, a, b[..steps - |a|]);
    } else {
      RunJoins(d, a, b);
    }
  }

  lemma {:induction false} CutWithin(d: Disk, past: seq<Action>, here: seq<Action>, rest: seq<Action>, steps: nat)
    ensures steps < |here| ==>
        Interrupted(d, past + (here + rest), |past| + steps) == Interrupted(Run(d, past), here, steps)
    ensures past + (here + rest) == (past + here) + rest
  {
    CutInFirst(d, past, here + rest, |past| + steps);
    CutInFirst(Run(d, past), here, rest, steps);
  }

  lemma {:induction false} RefreshEffect(d: Disk, m: Model)
    ensures Run(d, Refresh(m)) == Disk(d.marked - {m}, d.torn - {m}, {})
  {
    var a := Refresh(m);
    assert a[1..] == [End({m}, true), Clear(m)] && a[1..][1..] == [Clear(m)] && a[1..][1..][1..] == [];
    var d1 := Do(d, Begin({m}, true));
    var d2 := Do(d1, End({m}, true));
    assert Run(d, a) == Run(d1, [End({m}, true), Clear(m)]);
    assert Run(d1, [End({m}, true), Clear(m)]) == Run(d2, [Clear(m)]);
    assert [Clear(m)][1..] == [];
  }

  // ---- what holds at every step ----

  /** Every table that is or may be half-written is marked. */
  ghost predicate Covered(d: Disk) {
    d.torn <= d.marked && d.writing <= d.marked
  }

  /** Between builds. */
  ghost predicate Safe(d: Disk) {
    d.torn <= d.marked && d.writing == {}
  }

  /** An incremental run starts only on whole tables. */
  ghost predicate StartsWhole(d: Disk, a: Action) {
    a.Begin? && !a.refresh ==> a.models !! d.torn
  }

  /** Both, before and after each action. */
  ghost predicate Watched(d: Disk, actions: seq<Action>)
    decreases actions
  {
    && Covered(d)
    && (actions != [] ==> StartsWhole(d, actions[0]) && Watched(Do(d, actions[0]), actions[1..]))
  }

  lemma {:induction false} WatchedJoins(d: Disk, a: seq<Action>, b: seq<Action>)
    ensures Watched(d, a + b) <==> Watched(d, a) && Watched(Run(d, a), b)
    decreases a
  {
    if a == [] {
      assert a + b == b;
    } else {
      WatchedJoins(Do(d, a[0]), a[1..], b);
      assert (a + b)[0] == a[0] && (a + b)[1..] == a[1..] + b;
    }
  }

  lemma {:induction false} WatchedAt(d: Disk, actions: seq<Action>, k: nat)
    requires Watched(d, actions) && k <= |actions|
    ensures Covered(Run(d, actions[..k]))
    ensures k < |actions| ==> StartsWhole(Run(d, actions[..k]), actions[k])
    decreases k
  {
    if k > 0 {
      WatchedAt(Do(d, actions[0]), actions[1..], k - 1);
      assert actions[..k][0] == actions[0] && actions[..k][1..] == actions[1..][..k - 1];
    }
  }

  lemma {:induction false} RecoveryIsWatched(d: Disk, scope: seq<Model>)
    requires Safe(d)
    ensures Watched(d, Recovery(scope, d.marked))
    ensures Run(d, Recovery(scope, d.marked)) == Disk(d.marked - Models(scope), d.torn - Models(scope), {})
    decreases scope
  {
    if scope != [] {
      var m, rest := scope[0], scope[1..];
      assert scope == [m] + rest && Models(scope) == {m} + Models(rest);
      if m in d.marked {
        var after := Disk(d.marked - {m}, d.torn - {m}, {});
        RefreshIsWatched(d, m);
        RefreshEffect(d, m);
        RecoveryIsWatched(after, rest);
        WatchedJoins(d, Refresh(m), Recovery(rest, after.marked));
        RunJoins(d, Refresh(m), Recovery(rest, after.marked));
      } else {
        RecoveryIsWatched(d, rest);
      }
    }
  }

  lemma {:induction false} RefreshIsWatched(d: Disk, m: Model)
    requires Safe(d) && m in d.marked
    ensures Watched(d, Refresh(m))
  {
    var a := Refresh(m);
    var d1 := Do(d, a[0]);
    var d2 := Do(d1, a[1]);
    assert a[1..] == [a[1], a[2]] && [a[1], a[2]][1..] == [a[2]] && [a[2]][1..] == [];
    assert Watched(d2, [a[2]]);
    assert Watched(d1, a[1..]);
  }

  lemma {:induction false} MarksAreWatched(d: Disk, scope: seq<Model>)
    requires Safe(d)
    ensures Watched(d, Marks(scope))
    ensures Run(d, Marks(scope)) == d.(marked := d.marked + Models(scope))
    decreases scope
  {
    if scope != [] {
      assert scope == [scope[0]] + scope[1..] && Models(scope) == {scope[0]} + Models(scope[1..]);
      assert Marks(scope)[1..] == Marks(scope[1..]);
      MarksAreWatched(Do(d, Mark(scope[0])), scope[1..]);
    }
  }

  lemma {:induction false} ClearsAreWatched(d: Disk, scope: seq<Model>)
    requires Safe(d) && d.torn !! Models(scope)
    ensures Watched(d, Clears(scope))
    ensures Run(d, Clears(scope)) == d.(marked := d.marked - Models(scope))
    decreases scope
  {
    if scope != [] {
      assert scope == [scope[0]] + scope[1..] && Models(scope) == {scope[0]} + Models(scope[1..]);
      assert Clears(scope)[1..] == Clears(scope[1..]);
      ClearsAreWatched(Do(d, Clear(scope[0])), scope[1..]);
    }
  }

  /** What a started dbt run puts at stake. */
  lemma {:induction false} IncrementalRuns(d: Disk, writes: set<Model>)
    requires Safe(d)
    ensures Run(d, Incremental(writes)) == d && Run(d, Incremental(writes)[..1]) == d.(writing := writes)
    ensures Watched(d, Incremental(writes)) <==> writes <= d.marked && writes !! d.torn
  {
    var a := Incremental(writes);
    assert a[1..] == [a[1]] && [a[1]][1..] == [] && a[..1] == [a[0]] && [a[0]][1..] == [];
    var d1 := Do(d, a[0]);
    assert Run(d1, [a[1]]) == Do(d1, a[1]);
    assert Run(d, [a[0]]) == d1;
    assert Watched(d1, [a[1]]) <==> Covered(d1);
  }

  /** The state in which dbt starts: recovered, and with the scope marked. */
  function Prepared(d: Disk, scope: seq<Model>): Disk {
    Disk(d.marked + Models(scope), d.torn - Models(scope), {})
  }

  lemma {:induction false} PreparationIsWatched(d: Disk, scope: seq<Model>)
    requires Safe(d)
    ensures Watched(d, Preparation(scope, d.marked))
    ensures Run(d, Preparation(scope, d.marked)) == Prepared(d, scope)
  {
    var ms := Models(scope);
    var d1 := Disk(d.marked - ms, d.torn - ms, {});
    RecoveryIsWatched(d, scope);
    MarksAreWatched(d1, scope);
    WatchedJoins(d, Recovery(scope, d.marked), Marks(scope));
    RunJoins(d, Recovery(scope, d.marked), Marks(scope));
    assert d1.marked + ms == d.marked + ms;
  }

  /** An uncut ordinary build leaves its scope unmarked and whole and the rest alone. */
  lemma {:induction false} BuildRuns(d: Disk, scope: seq<Model>, writes: set<Model>)
    requires Safe(d)
    ensures Run(d, OrdinaryPlan(scope, writes, d.marked)) == Disk(d.marked - Models(scope), d.torn - Models(scope), {})
  {
    var prepared := Prepared(d, scope);
    PreparationIsWatched(d, scope);
    IncrementalRuns(prepared, writes);
    ClearsAreWatched(prepared, scope);
    RunJoins(prepared, Incremental(writes), Clears(scope));
    RunJoins(d, Preparation(scope, d.marked), Incremental(writes) + Clears(scope));
    assert prepared.marked - Models(scope) == d.marked - Models(scope);
  }

  /** An ordinary build is sound at every step exactly when dbt writes only marked tables, all of them whole by then. */
  lemma {:induction false} BuildIsWatchedExactly(d: Disk, scope: seq<Model>, writes: set<Model>)
    requires Safe(d)
    ensures Watched(d, OrdinaryPlan(scope, writes, d.marked))
       <==> writes <= d.marked + Models(scope) && writes * d.torn <= Models(scope)
  {
    var prepared := Prepared(d, scope);
    PreparationIsWatched(d, scope);
    IncrementalRuns(prepared, writes);
    ClearsAreWatched(prepared, scope);
    WatchedJoins(prepared, Incremental(writes), Clears(scope));
    WatchedJoins(d, Preparation(scope, d.marked), Incremental(writes) + Clears(scope));
    OnlyScopeWasTorn(d, scope, writes);
  }

  lemma {:induction false} OnlyScopeWasTorn(d: Disk, scope: seq<Model>, writes: set<Model>)
    ensures writes !! Prepared(d, scope).torn <==> writes * d.torn <= Models(scope)
  {
    if writes !! Prepared(d, scope).torn {
      forall m | m in writes * d.torn ensures m in Models(scope) {
        assert m !in Prepared(d, scope).torn;
      }
    }
  }

  lemma {:induction false} CutWatchedIsSafe(d: Disk, actions: seq<Action>, steps: nat)
    requires Watched(d, actions) && Safe(Run(d, actions))
    ensures Safe(Interrupted(d, actions, steps))
  {
    if steps < |actions| { WatchedAt(d, actions, steps); }
  }

  /** An ordinary build is cut while dbt writes. */
  predicate CutWhileWriting(scope: seq<Model>, marked: set<Model>, steps: nat) {
    steps == |Preparation(scope, marked)| + 1
  }

  /** An ordinary build keeps the warehouse safe exactly if it is not cut while dbt writes a table nobody marked. */
  lemma {:induction false} BuildIsSafeExactly(d: Disk, scope: seq<Model>, writes: set<Model>, steps: nat)
    requires Safe(d)
    ensures Safe(Interrupted(d, OrdinaryPlan(scope, writes, d.marked), steps))
       <==> (CutWhileWriting(scope, d.marked, steps) ==> writes - Models(scope) <= d.marked)
  {
    var preparation, run, prepared := Preparation(scope, d.marked), Incremental(writes), Prepared(d, scope);
    PreparationIsWatched(d, scope);
    CutInFirst(d, preparation, run + Clears(scope), steps);
    if steps < |preparation| {
      CutWatchedIsSafe(d, preparation, steps);
    } else {
      CutInFirst(prepared, run, Clears(scope), steps - |preparation|);
      IncrementalRuns(prepared, writes);
      if steps < |preparation| + 2 {
        assert run[..0] == [];
      } else {
        ClearsAreWatched(prepared, scope);
        CutWatchedIsSafe(prepared, Clears(scope), steps - |preparation| - 2);
      }
    }
  }

  ghost predicate SafeWhenCut(d: Disk, scope: seq<Model>, writes: set<Model>, steps: nat) {
    Safe(Interrupted(d, OrdinaryPlan(scope, writes, d.marked), steps))
  }

  /** Wherever it is cut: exactly if every table dbt writes is in the scope or marked from before. */
  lemma {:induction false} AnyCutIsSafeExactly(d: Disk, scope: seq<Model>, writes: set<Model>)
    requires Safe(d)
    ensures (forall steps :: SafeWhenCut(d, scope, writes, steps)) <==> writes - Models(scope) <= d.marked
  {
    forall steps | writes - Models(scope) <= d.marked ensures SafeWhenCut(d, scope, writes, steps) {
      BuildIsSafeExactly(d, scope, writes, steps);
    }
    BuildIsSafeExactly(d, scope, writes, |Preparation(scope, d.marked)| + 1);
    if forall steps :: SafeWhenCut(d, scope, writes, steps) {
      assert SafeWhenCut(d, scope, writes, |Preparation(scope, d.marked)| + 1);
    }
  }

  ghost predicate StartsWholeAt(d: Disk, actions: seq<Action>, k: nat)
    requires k < |actions|
  {
    StartsWhole(Run(d, actions[..k]), actions[k])
  }

  ghost predicate AlwaysStartsWhole(d: Disk, actions: seq<Action>) {
    forall k :: 0 <= k < |actions| ==> StartsWholeAt(d, actions, k)
  }

  /** No incremental run of a build starts on a half-written table, exactly if those it writes are in its scope. */
  lemma {:induction false} StartsWholeExactly(d: Disk, scope: seq<Model>, writes: set<Model>)
    requires Safe(d)
    ensures AlwaysStartsWhole(d, OrdinaryPlan(scope, writes, d.marked)) <==> writes * d.torn <= Models(scope)
  {
    var plan, start := OrdinaryPlan(scope, writes, d.marked), |Preparation(scope, d.marked)|;
    PreparationIsWatched(d, scope);
    OnlyScopeWasTorn(d, scope, writes);
    assert plan[..start] == Preparation(scope, d.marked) && plan[start] == Begin(writes, false);
    forall k | 0 <= k < |plan| && k != start ensures StartsWholeAt(d, plan, k) {
      OtherStepsStartWhole(d, scope, writes, k);
    }
    if AlwaysStartsWhole(d, plan) { assert StartsWholeAt(d, plan, start); }
  }

  lemma {:induction false} OtherStepsStartWhole(d: Disk, scope: seq<Model>, writes: set<Model>, k: nat)
    requires Safe(d) && k < |OrdinaryPlan(scope, writes, d.marked)| && k != |Preparation(scope, d.marked)|
    ensures StartsWholeAt(d, OrdinaryPlan(scope, writes, d.marked), k)
  {
    var plan, preparation := OrdinaryPlan(scope, writes, d.marked), Preparation(scope, d.marked);
    if k < |preparation| {
      PreparationIsWatched(d, scope);
      WatchedAt(d, preparation, k);
      assert plan[..k] == preparation[..k] && plan[k] == preparation[k];
    } else if k > |preparation| + 1 {
      ClearsOnly(scope, k - |preparation| - 2);
      assert plan[k] == Clears(scope)[k - |preparation| - 2];
    }
  }

  lemma {:induction false} ClearsOnly(scope: seq<Model>, k: nat)
    requires k < |Clears(scope)|
    ensures Clears(scope)[k].Clear?
  {
    if k > 0 { ClearsOnly(scope[1..], k - 1); }
  }

  // ---- sequences of builds ----

  datatype Job =
    | Ordinary(scope: seq<Model>, writes: set<Model>, steps: nat)
    | FullRefresh(models: set<Model>, steps: nat)

  function PlanOf(d: Disk, job: Job): seq<Action> {
    match job
    case Ordinary(scope, writes, _) => OrdinaryPlan(scope, writes, d.marked)
    case FullRefresh(models, _) => RefreshPlan(models)
  }

  function Done(d: Disk, job: Job): Disk {
    Interrupted(d, PlanOf(d, job), job.steps)
  }

  function After(d: Disk, jobs: seq<Job>, n: nat): Disk
    requires n <= |jobs|
  {
    if n == 0 then d else Done(After(d, jobs, n - 1), jobs[n - 1])
  }

  /** A build that is not cut while dbt writes a table that is not marked by then. */
  ghost predicate Harmless(d: Disk, job: Job) {
    match job
    case Ordinary(scope, writes, steps) => CutWhileWriting(scope, d.marked, steps) ==>
        writes - Models(scope) <= d.marked
    case FullRefresh(models, steps) => steps == 1 ==> models <= d.marked
  }

  lemma {:induction false} RefreshRuns(d: Disk, models: set<Model>)
    ensures Run(d, RefreshPlan(models)[..1]) == d.(writing := models)
    ensures Run(d, RefreshPlan(models)) == d.(writing := {}, torn := d.torn - models)
  {
    var a := RefreshPlan(models);
    assert a[..1] == [a[0]] && [a[0]][1..] == [] && a[1..] == [a[1]] && [a[1]][1..] == [];
    var d1 := Do(d, a[0]);
    assert Run(d, [a[0]]) == d1 && Run(d1, [a[1]]) == Do(d1, a[1]);
  }

  /** A full-refresh build keeps the warehouse safe exactly if it is not cut while dbt writes an unmarked table. */
  lemma {:induction false} FullRefreshIsSafeExactly(d: Disk, models: set<Model>, steps: nat)
    requires Safe(d)
    ensures Safe(Interrupted(d, RefreshPlan(models), steps)) <==> Harmless(d, FullRefresh(models, steps))
  {
    RefreshRuns(d, models);
    if steps == 0 { assert RefreshPlan(models)[..0] == []; }
  }

  lemma {:induction false} JobIsSafeExactly(d: Disk, job: Job)
    requires Safe(d)
    ensures Safe(Done(d, job)) <==> Harmless(d, job)
  {
    match job
    case Ordinary(scope, writes, steps) => BuildIsSafeExactly(d, scope, writes, steps);
    case FullRefresh(models, steps) => FullRefreshIsSafeExactly(d, models, steps);
  }

  /** Every job started in a state its predecessors left, and was harmless there. */
  ghost predicate AllHarmless(d: Disk, jobs: seq<Job>) {
    forall n :: 0 <= n < |jobs| ==> HarmlessAt(d, jobs, n)
  }

  ghost predicate HarmlessAt(d: Disk, jobs: seq<Job>, n: nat)
    requires n < |jobs|
  {
    Harmless(After(d, jobs, n), jobs[n])
  }

  /**
   Over every sequence of builds of which none is cut while dbt writes an unmarked table, a table that may
   be half-written is marked.
   */
  lemma {:induction false} TornTablesAreMarked(d: Disk, jobs: seq<Job>, n: nat)
    requires Safe(d) && AllHarmless(d, jobs) && n <= |jobs|
    ensures Safe(After(d, jobs, n))
  {
    if n > 0 {
      TornTablesAreMarked(d, jobs, n - 1);
      assert HarmlessAt(d, jobs, n - 1);
      JobIsSafeExactly(After(d, jobs, n - 1), jobs[n - 1]);
    }
  }

  ghost predicate SafeAfter(d: Disk, jobs: seq<Job>, n: nat)
    requires n <= |jobs|
  {
    Safe(After(d, jobs, n))
  }

  ghost predicate AlwaysSafe(d: Disk, jobs: seq<Job>) {
    forall n :: 0 <= n <= |jobs| ==> SafeAfter(d, jobs, n)
  }

  /** A sequence of builds is safe after every build exactly when each of its builds is harmless where it starts. */
  lemma {:induction false} SafeThroughoutExactly(d: Disk, jobs: seq<Job>)
    requires Safe(d)
    ensures AlwaysSafe(d, jobs) <==> AllHarmless(d, jobs)
  {
    if AllHarmless(d, jobs) {
      forall n | 0 <= n <= |jobs| ensures SafeAfter(d, jobs, n) { TornTablesAreMarked(d, jobs, n); }
    }
    if AlwaysSafe(d, jobs) {
      forall n | 0 <= n < |jobs| ensures HarmlessAt(d, jobs, n) { SafeMeansHarmlessAt(d, jobs, n); }
    }
  }

  lemma {:induction false} SafeMeansHarmlessAt(d: Disk, jobs: seq<Job>, n: nat)
    requires AlwaysSafe(d, jobs) && n < |jobs|
    ensures HarmlessAt(d, jobs, n)
  {
    assert SafeAfter(d, jobs, n) && SafeAfter(d, jobs, n + 1);
    JobIsSafeExactly(After(d, jobs, n), jobs[n]);
  }

  function PlanAt(d: Disk, jobs: seq<Job>, n: nat): seq<Action>
    requires n < |jobs|
  {
    PlanOf(After(d, jobs, n), jobs[n])
  }

  /** In such a sequence, a build starts on no half-written table exactly if those that dbt writes are in its scope. */
  lemma {:induction false} NoIncrementalOnTornTables(d: Disk, jobs: seq<Job>, n: nat)
    requires Safe(d) && AllHarmless(d, jobs) && n < |jobs| && jobs[n].Ordinary?
    ensures AlwaysStartsWhole(After(d, jobs, n), PlanAt(d, jobs, n))
       <==> jobs[n].writes * After(d, jobs, n).torn <= Models(jobs[n].scope)
  {
    TornTablesAreMarked(d, jobs, n);
    StartsWholeExactly(After(d, jobs, n), jobs[n].scope, jobs[n].writes);
  }

  /** An ordinary build in which dbt writes nothing outside the scope that is marked for it. */
  predicate KeepsToScope(job: Job) {
    job.Ordinary? && job.writes <= Models(job.scope)
  }

  /** Builds that keep to their scope are safe wherever they are cut, and never start on half-written tables. */
  lemma {:induction false} ScopedBuildsAreSafe(d: Disk, jobs: seq<Job>, n: nat)
    requires Safe(d) && n < |jobs| && forall i :: 0 <= i < |jobs| ==> KeepsToScope(jobs[i])
    ensures AlwaysSafe(d, jobs) && Watched(After(d, jobs, n), PlanAt(d, jobs, n))
  {
    forall i | 0 <= i < |jobs| ensures HarmlessAt(d, jobs, i) {
      assert KeepsToScope(jobs[i]);
    }
    SafeThroughoutExactly(d, jobs);
    assert SafeAfter(d, jobs, n) && KeepsToScope(jobs[n]);
    BuildIsWatchedExactly(After(d, jobs, n), jobs[n].scope, jobs[n].writes);
  }

  /** One uncut ordinary build repairs its scope after any such sequence, whatever else dbt writes in it. */
  lemma {:induction false} OneBuildRepairs(d: Disk, jobs: seq<Job>, scope: seq<Model>, writes: set<Model>)
    requires Safe(d) && AllHarmless(d, jobs)
    ensures var before := After(d, jobs, |jobs|);
      var after := Run(before, OrdinaryPlan(scope, writes, before.marked));
      after.marked !! Models(scope) && after.torn !! Models(scope)
      && after.marked == before.marked - Models(scope) && after.torn == before.torn - Models(scope)
  {
    TornTablesAreMarked(d, jobs, |jobs|);
    BuildRuns(After(d, jobs, |jobs|), scope, writes);
  }

  // ---- what is left when a build is cut outside its scope ----

  /** A half-written table that no marker tells of, with nothing being written. */
  predicate IsTornUnmarked(d: Disk, m: Model) {
    d.writing == {} && m in d.torn && m !in d.marked
  }

  lemma {:induction false} RecoveryOnlyTouchesMarked(d: Disk, scope: seq<Model>, m: Model)
    requires IsTornUnmarked(d, m)
    ensures IsTornUnmarked(Run(d, Recovery(scope, d.marked)), m)
    decreases scope
  {
    if scope != [] {
      if scope[0] in d.marked {
        RefreshEffect(d, scope[0]);
        RunJoins(d, Refresh(scope[0]), Recovery(scope[1..], d.marked - {scope[0]}));
        RecoveryOnlyTouchesMarked(Disk(d.marked - {scope[0]}, d.torn - {scope[0]}, {}), scope[1..], m);
      } else {
        RecoveryOnlyTouchesMarked(d, scope[1..], m);
      }
    }
  }

  lemma {:induction false} MarksAndClearsKeepTables(d: Disk, scope: seq<Model>)
    ensures Run(d, Marks(scope)).torn == d.torn && Run(d, Marks(scope)).writing == d.writing
    ensures Run(d, Marks(scope)).marked == d.marked + Models(scope)
    ensures Run(d, Clears(scope)).torn == d.torn && Run(d, Clears(scope)).marked == d.marked - Models(scope)
    ensures Run(d, Clears(scope)).writing == d.writing
    decreases scope
  {
    if scope != [] {
      assert scope == [scope[0]] + scope[1..] && Models(scope) == {scope[0]} + Models(scope[1..]);
      assert Marks(scope)[1..] == Marks(scope[1..]) && Clears(scope)[1..] == Clears(scope[1..]);
      MarksAndClearsKeepTables(Do(d, Mark(scope[0])), scope[1..]);
      MarksAndClearsKeepTables(Do(d, Clear(scope[0])), scope[1..]);
    }
  }

  /** Neither preparing the build nor running it nor clearing its markers brings an unmarked half-written table back. */
  lemma {:induction false} UnmarkedStaysTorn(d: Disk, scope: seq<Model>, writes: set<Model>, m: Model)
    requires IsTornUnmarked(d, m)
    ensures m in Run(d, Preparation(scope, d.marked)).torn
    ensures IsTornUnmarked(Run(d, OrdinaryPlan(scope, writes, d.marked)), m)
  {
    var recovery, marks, run, clears := Recovery(scope, d.marked), Marks(scope), Incremental(writes), Clears(scope);
    RecoveryOnlyTouchesMarked(d, scope, m);
    RunJoins(d, recovery, marks);
    MarksAndClearsKeepTables(Run(d, recovery), scope);
    var d2 := Run(d, recovery + marks);
    assert run[1..] == [run[1]] && [run[1]][1..] == [];
    assert Run(Do(d2, run[0]), [run[1]]) == Do(Do(d2, run[0]), run[1]);
    MarksAndClearsKeepTables(Run(d2, run), scope);
    RunJoins(d2, run, clears);
    RunJoins(d, recovery + marks, run + clears);
  }

  /**
   A half-written table without its marker, which a build cut while it writes an unmarked table leaves, is
   built on incrementally by every later ordinary build that writes it, and stays half-written and unmarked.
   */
  lemma {:induction false} UnmarkedTornTableIsBuiltOn(d: Disk, scope: seq<Model>, writes: set<Model>, m: Model)
    requires IsTornUnmarked(d, m) && m in writes
    ensures !AlwaysStartsWhole(d, OrdinaryPlan(scope, writes, d.marked))
    ensures IsTornUnmarked(Run(d, OrdinaryPlan(scope, writes, d.marked)), m)
  {
    var plan, start := OrdinaryPlan(scope, writes, d.marked), |Preparation(scope, d.marked)|;
    UnmarkedStaysTorn(d, scope, writes, m);
    assert plan[..start] == Preparation(scope, d.marked) && plan[start] == Begin(writes, false);
    assert m in Run(d, plan[..start]).torn && !StartsWholeAt(d, plan, start);
  }

  /** An uncut full-refresh build makes its tables whole and leaves every marker as it was. */
  lemma {:induction false} FullRefreshKeepsMarkers(d: Disk, models: set<Model>)
    ensures Run(d, RefreshPlan(models)) == Disk(d.marked, d.torn - models, {})
  {
    RefreshRuns(d, models);
  }

  /** A build rebuilds a model from scratch exactly when the model is in scope and marked, whole or not. */
  lemma {:induction false} RebuildsExactlyMarked(scope: seq<Model>, writes: set<Model>, marked: set<Model>, m: Model)
    ensures Begin({m}, true) in OrdinaryPlan(scope, writes, marked) <==> m in scope && m in marked
  {
    RecoveryRebuilds(scope, marked, m);
    NoRebuildAfterRecovery(scope, m);
  }

  lemma {:induction false} RecoveryRebuilds(scope: seq<Model>, marked: set<Model>, m: Model)
    ensures Begin({m}, true) in Recovery(scope, marked) <==> m in scope && m in marked
    decreases scope
  {
    if scope != [] {
      assert scope == [scope[0]] + scope[1..];
      if scope[0] in marked {
        RecoveryRebuilds(scope[1..], marked - {scope[0]}, m);
        assert Refresh(scope[0])[0] == Begin({scope[0]}, true);
        if m != scope[0] { assert m in {m} && m !in {scope[0]}; }
      } else {
        RecoveryRebuilds(scope[1..], marked, m);
      }
    }
  }

  lemma {:induction false} NoRebuildAfterRecovery(scope: seq<Model>, m: Model)
    ensures Begin({m}, true) !in Marks(scope) && Begin({m}, true) !in Clears(scope)
    decreases scope
  {
    if scope != [] { NoRebuildAfterRecovery(scope[1..], m); }
  }
}
