/**
 Market observations around each event band: the last one strictly before the band and the first one
 at or after its end, found by bisection in the sorted observations of each role and kept inside the
 band's period. Bands live in microseconds and observations in milliseconds.
 */
module Reactions {
  import opened Wrappers
  import opened Timescale
  import opened MatchFacts
  import opened ScoreReplay
  import opened VideoTimeline
  import Sorting

  datatype Measures = Measures(
    midpoint: Option<real>, spread: Option<real>,
    bidDepth: real, askDepth: real, imbalance: Option<real>,
    volume: real, volatility: Option<real>)

  /** One order-book observation of one role. */
  datatype Metric = Metric(sequence: int, role: string, timestamp: int, measures: Measures)

  /** The fields of an observation a reaction reports. */
  datatype Observation = Observation(timestamp: int, measures: Measures)

  datatype Window = Window(start: int, end: Option<int>, before: Option<Observation>, after: Option<Observation>)

  datatype Reaction = Reaction(eventId: string, role: string, primary: Window, extended: Window)

  // ---- milliseconds ----

  function FloorMs(us: int): int {
    us / MILLISECOND
  }

  function CeilMs(us: int): int {
    -((-us) / MILLISECOND)
  }

  /** The directional roundings keep the comparisons between an observation and a band exact. */
  lemma {:induction false} MillisecondsCompareExactly(ms: int, us: int)
    ensures ms < CeilMs(us) <==> ms * MILLISECOND < us
    ensures ms >= CeilMs(us) <==> ms * MILLISECOND >= us
    ensures ms <= FloorMs(us) <==> ms * MILLISECOND <= us
  {
  }

  // ---- bisection ----

  /** The number of leading timestamps below the boundary. */
  function LowerBound(timestamps: seq<int>, boundary: int): (i: nat)
    ensures i <= |timestamps|
  {
    if timestamps == [] || timestamps[0] >= boundary then 0 else 1 + LowerBound(timestamps[1..], boundary)
  }

  /** The bound splits the timestamps into those below the boundary and a first one that is not. */
  lemma {:induction false} LowerBoundSplits(timestamps: seq<int>, boundary: int)
    ensures var i := LowerBound(timestamps, boundary);
            && (forall k :: 0 <= k < i ==> timestamps[k] < boundary)
            && (i < |timestamps| ==> timestamps[i] >= boundary)
  {
    if timestamps != [] && timestamps[0] < boundary {
      LowerBoundSplits(timestamps[1..], boundary);
      assert timestamps == [timestamps[0]] + timestamps[1..];
    }
  }

  ghost predicate Ascending(timestamps: seq<int>) {
    forall i, j :: 0 <= i < j < |timestamps| ==> timestamps[i] <= timestamps[j]
  }

  /** `bisect.bisect_left`: on ascending timestamps the halving search finds the linear answer. */
  method BisectLeft(timestamps: seq<int>, boundary: int) returns (lo: nat)
    requires Ascending(timestamps)
    ensures lo == LowerBound(timestamps, boundary)
  {
    lo := 0;
    var hi := |timestamps|;
    while lo < hi
      invariant 0 <= lo <= hi <= |timestamps|
      invariant forall k :: 0 <= k < lo ==> timestamps[k] < boundary
      invariant forall k :: hi <= k < |timestamps| ==> timestamps[k] >= boundary
    {
      var mid := (lo + hi) / 2;
      if timestamps[mid] < boundary {
        lo := mid + 1;
      } else {
        hi := mid;
      }
    }
    LowerBoundIsUnique(timestamps, boundary, lo);
  }

  lemma {:induction false} LowerBoundIsUnique(timestamps: seq<int>, boundary: int, i: nat)
    requires i <= |timestamps|
    requires forall k :: 0 <= k < i ==> timestamps[k] < boundary
    requires i < |timestamps| ==> timestamps[i] >= boundary
    ensures i == LowerBound(timestamps, boundary)
  {
    LowerBoundSplits(timestamps, boundary);
  }

  // ---- observations of one role ----

  predicate MetricLeq(a: Metric, b: Metric) {
    a.timestamp < b.timestamp || (a.timestamp == b.timestamp && a.sequence <= b.sequence)
  }

  function RoleMetrics(metrics: seq<Metric>, n: nat, role: string): seq<Metric>
    requires n <= |metrics|
  {
    if n == 0 then []
    else if metrics[n - 1].role == role then RoleMetrics(metrics, n - 1, role) + [metrics[n - 1]]
    else RoleMetrics(metrics, n - 1, role)
  }

  lemma {:induction false} RoleMetricsMembers(metrics: seq<Metric>, n: nat, role: string)
    requires n <= |metrics|
    ensures forall m :: m in RoleMetrics(metrics, n, role) <==> m in metrics[..n] && m.role == role
  {
    if n > 0 {
      RoleMetricsMembers(metrics, n - 1, role);
      assert metrics[..n] == metrics[..n - 1] + [metrics[n - 1]];
    }
  }

  /** The role's observations by (timestamp, sequence). */
  function RoleRows(metrics: seq<Metric>, role: string): seq<Metric> {
    Sorting.Sort(RoleMetrics(metrics, |metrics|, role), MetricLeq)
  }

  lemma {:induction false} RoleRowsAreSorted(metrics: seq<Metric>, role: string)
    ensures Sorting.Sorted(RoleRows(metrics, role), MetricLeq)
    ensures Ascending(Timestamps(RoleRows(metrics, role)))
    ensures forall m :: m in RoleRows(metrics, role) <==> m in metrics && m.role == role
  {
    var mine := RoleMetrics(metrics, |metrics|, role);
    Sorting.SortSorts(mine, MetricLeq);
    Sorting.SortKeepsMembers(mine, MetricLeq);
    RoleMetricsMembers(metrics, |metrics|, role);
    assert metrics[..|metrics|] == metrics;
  }

  function Timestamps(rows: seq<Metric>): seq<int> {
    seq(|rows|, i requires 0 <= i < |rows| => rows[i].timestamp)
  }

  function Project(m: Metric): Observation {
    Observation(m.timestamp, m.measures)
  }

  function Before(rows: seq<Metric>, boundary: int, periodStart: Option<int>): Option<Observation> {
    var index := LowerBound(Timestamps(rows), boundary) - 1;
    if index < 0 || (periodStart.Some? && rows[index].timestamp < periodStart.value) then None
    else Some(Project(rows[index]))
  }

  function After(rows: seq<Metric>, boundary: int, periodEnd: int): Option<Observation> {
    var index := LowerBound(Timestamps(rows), boundary);
    if index >= |rows| || rows[index].timestamp > periodEnd then None else Some(Project(rows[index]))
  }

  /** Whatever the observations, `before` precedes its boundary and does not precede the period. */
  lemma {:induction false} BeforeKeepsBounds(rows: seq<Metric>, boundary: int, periodStart: Option<int>)
    ensures Before(rows, boundary, periodStart).Some? ==>
              Before(rows, boundary, periodStart).value.timestamp < boundary
              && (periodStart.Some? ==> Before(rows, boundary, periodStart).value.timestamp >= periodStart.value)
  {
    LowerBoundSplits(Timestamps(rows), boundary);
    var index := LowerBound(Timestamps(rows), boundary) - 1;
    if index >= 0 { assert Timestamps(rows)[index] < boundary; }
  }

  lemma {:induction false} AfterKeepsBounds(rows: seq<Metric>, boundary: int, periodEnd: int)
    ensures After(rows, boundary, periodEnd).Some? ==>
              boundary <= After(rows, boundary, periodEnd).value.timestamp <= periodEnd
  {
    LowerBoundSplits(Timestamps(rows), boundary);
    var index := LowerBound(Timestamps(rows), boundary);
    if index < |rows| { assert Timestamps(rows)[index] >= boundary; }
  }

  /** In sorted rows an observation lies before the bisection point exactly when it precedes the boundary. */
  lemma {:induction false} BisectionSplits(rows: seq<Metric>, boundary: int, k: nat)
    requires Ascending(Timestamps(rows)) && k < |rows|
    ensures k < LowerBound(Timestamps(rows), boundary) <==> rows[k].timestamp < boundary
  {
    var ts := Timestamps(rows);
    var i := LowerBound(ts, boundary);
    LowerBoundSplits(ts, boundary);
    assert ts[k] == rows[k].timestamp;
    if k > i { assert ts[i] <= ts[k]; }
  }

  /** The observation at hand is the role's latest by (timestamp, sequence) before the boundary. */
  ghost predicate IsLatestBefore(metrics: seq<Metric>, role: string, boundary: int, m: Metric) {
    && m in metrics && m.role == role && m.timestamp < boundary
    && forall other :: other in metrics && other.role == role && other.timestamp < boundary ==>
         other.timestamp < m.timestamp || (other.timestamp == m.timestamp && other.sequence <= m.sequence)
  }

  ghost predicate IsEarliestFrom(metrics: seq<Metric>, role: string, boundary: int, m: Metric) {
    && m in metrics && m.role == role && m.timestamp >= boundary
    && forall other :: other in metrics && other.role == role && other.timestamp >= boundary ==>
         m.timestamp < other.timestamp || (m.timestamp == other.timestamp && m.sequence <= other.sequence)
  }

  lemma {:induction false} RowBeforeIsLatest(metrics: seq<Metric>, role: string, boundary: int)
    ensures var rows := RoleRows(metrics, role);
      var index := LowerBound(Timestamps(rows), boundary) - 1;
      && (index >= 0 ==> IsLatestBefore(metrics, role, boundary, rows[index]))
      && (forall m :: m in metrics && m.role == role && m.timestamp < boundary ==> index >= 0)
  {
    var rows := RoleRows(metrics, role);
    RoleRowsAreSorted(metrics, role);
    var index := LowerBound(Timestamps(rows), boundary) - 1;
    forall other | other in metrics && other.role == role && other.timestamp < boundary
      ensures index >= 0 && MetricLeq(other, rows[index])
    {
      assert other in rows;
      var k :| 0 <= k < |rows| && rows[k] == other;
      BisectionSplits(rows, boundary, k);
    }
    if index >= 0 {
      BisectionSplits(rows, boundary, index);
      assert rows[index] in rows;
    }
  }

  /**
   `before` is the role's latest observation strictly before the window when that one lies in the
   period, and is missing exactly when the role has no observation in the period before the window.
   */
  lemma {:induction false} BeforeIsLatest(metrics: seq<Metric>, role: string, boundary: int, periodStart: Option<int>)
    ensures var before := Before(RoleRows(metrics, role), boundary, periodStart);
            && (before.Some? ==> exists m :: IsLatestBefore(metrics, role, boundary, m) && before.value == Project(m)
                                             && (periodStart.Some? ==> m.timestamp >= periodStart.value))
            && (before.None? <==> forall m :: m in metrics && m.role == role && m.timestamp < boundary ==>
                                    periodStart.Some? && m.timestamp < periodStart.value)
  {
    RowBeforeIsLatest(metrics, role, boundary);
  }

  /**
   `after` is the role's earliest observation at or after the window when that one lies in the
   period, and is missing exactly when the role has no observation between there and the period's end.
   */
  lemma {:induction false} AfterIsEarliest(metrics: seq<Metric>, role: string, boundary: int, periodEnd: int)
    ensures var after := After(RoleRows(metrics, role), boundary, periodEnd);
            && (after.Some? ==> exists m :: IsEarliestFrom(metrics, role, boundary, m) && after.value == Project(m)
                                            && m.timestamp <= periodEnd)
            && (after.None? <==> forall m :: m in metrics && m.role == role && m.timestamp >= boundary ==>
                                   m.timestamp > periodEnd)
  {
    var rows := RoleRows(metrics, role);
    RoleRowsAreSorted(metrics, role);
    var index := LowerBound(Timestamps(rows), boundary);
    forall other | other in metrics && other.role == role && other.timestamp >= boundary
      ensures index < |rows| && MetricLeq(rows[index], other)
    {
      assert other in rows;
      var k :| 0 <= k < |rows| && rows[k] == other;
      BisectionSplits(rows, boundary, k);
    }
    if index < |rows| {
      BisectionSplits(rows, boundary, index);
      assert rows[index] in rows && IsEarliestFrom(metrics, role, boundary, rows[index]);
    }
  }

  // ---- role names in order ----

  /** Lexicographic order of strings by code point. */
  predicate Less(a: string, b: string) {
    b != "" && (a == "" || a[0] < b[0] || (a[0] == b[0] && Less(a[1..], b[1..])))
  }

  lemma {:induction false} LessIsTransitive(a: string, b: string, c: string)
    requires Less(a, b) && Less(b, c)
    ensures Less(a, c)
  {
    if a != "" && a[0] == b[0] == c[0] { LessIsTransitive(a[1..], b[1..], c[1..]); }
  }

  lemma {:induction false} LessIsTotal(a: string, b: string)
    ensures Less(a, b) || Less(b, a) || a == b
    ensures !Less(a, a)
  {
    if a != "" {
      LessIsTotal(a[1..], if b == "" then a else b[1..]);
      if b != "" { assert a == [a[0]] + a[1..] && b == [b[0]] + b[1..]; }
    }
  }

  ghost predicate NamesAscend(names: seq<string>) {
    forall i, j :: 0 <= i < j < |names| ==> Less(names[i], names[j])
  }

  function InsertName(name: string, names: seq<string>): seq<string> {
    if names == [] then [name]
    else if names[0] == name then names
    else if Less(name, names[0]) then [name] + names
    else [names[0]] + InsertName(name, names[1..])
  }

  lemma {:induction false} InsertNameKeepsOrder(name: string, names: seq<string>)
    requires NamesAscend(names)
    ensures NamesAscend(InsertName(name, names))
    ensures forall x :: x in InsertName(name, names) <==> x == name || x in names
  {
    if names != [] && names[0] != name {
      if Less(name, names[0]) {
        forall j | 1 <= j < |names| ensures Less(name, names[j]) {
          LessIsTransitive(name, names[0], names[j]);
        }
      } else {
        LessIsTotal(name, names[0]);
        InsertNameKeepsOrder(name, names[1..]);
        var rest := InsertName(name, names[1..]);
        forall j | 0 <= j < |rest| ensures Less(names[0], rest[j]) {
          assert rest[j] == name || rest[j] in names[1..];
        }
        assert names == [names[0]] + names[1..];
      }
    }
  }

  /** The distinct roles of the first n observations, in string order. */
  function RoleNames(metrics: seq<Metric>, n: nat): seq<string>
    requires n <= |metrics|
  {
    if n == 0 then [] else InsertName(metrics[n - 1].role, RoleNames(metrics, n - 1))
  }

  lemma {:induction false} RoleNamesAreTheRoles(metrics: seq<Metric>, n: nat)
    requires n <= |metrics|
    ensures NamesAscend(RoleNames(metrics, n))
    ensures forall r :: r in RoleNames(metrics, n) <==> exists i :: 0 <= i < n && metrics[i].role == r
    ensures forall i, j :: 0 <= i < j < |RoleNames(metrics, n)| ==> RoleNames(metrics, n)[i] != RoleNames(metrics, n)[j]
  {
    if n > 0 {
      RoleNamesAreTheRoles(metrics, n - 1);
      InsertNameKeepsOrder(metrics[n - 1].role, RoleNames(metrics, n - 1));
    }
    var names := RoleNames(metrics, n);
    forall i, j | 0 <= i < j < |names| ensures names[i] != names[j] {
      LessIsTotal(names[i], names[j]);
    }
  }

  // ---- looking up bands ----

  predicate HasKey(row: Band, period: Period, minute: Option<int>, stoppage: Option<int>) {
    row.period == period && row.minute == minute && row.stoppage == stoppage
  }

  /** The index a dictionary keyed by (period, minute, stoppage) gives: the last row with that key. */
  function KeyIndex(rows: seq<Band>, period: Period, minute: Option<int>, stoppage: Option<int>): (r: Option<nat>)
    ensures r.Some? ==> r.value < |rows| && HasKey(rows[r.value], period, minute, stoppage)
  {
    if rows == [] then None
    else if HasKey(rows[|rows| - 1], period, minute, stoppage) then Some(|rows| - 1)
    else KeyIndex(rows[..|rows| - 1], period, minute, stoppage)
  }

  lemma {:induction false} KeyIndexFindsKeys(rows: seq<Band>, period: Period, minute: Option<int>,
                                             stoppage: Option<int>, i: nat)
    requires i < |rows| && HasKey(rows[i], period, minute, stoppage)
    ensures KeyIndex(rows, period, minute, stoppage).Some?
  {
    if !HasKey(rows[|rows| - 1], period, minute, stoppage) {
      KeyIndexFindsKeys(rows[..|rows| - 1], period, minute, stoppage, i);
    }
  }

  function EventIndex(rows: seq<Band>, e: Event): (r: Option<nat>)
    ensures r.Some? ==> r.value < |rows| && HasKey(rows[r.value], e.period, e.minute, e.stoppage)
  {
    KeyIndex(rows, e.period, e.minute, e.stoppage)
  }

  /** The greatest whole millisecond inside the period, over all its rows. */
  function PeriodEndMs(rows: seq<Band>, period: Period): Option<int> {
    if rows == [] then None
    else
      var last := rows[|rows| - 1];
      var before := PeriodEndMs(rows[..|rows| - 1], period);
      if last.period != period then before
      else if before.Some? && before.value >= FloorMs(last.sourceEnd) then before
      else Some(FloorMs(last.sourceEnd))
  }

  function PeriodStartMs(rows: seq<Band>, period: Period): Option<int> {
    if rows == [] then None
    else
      var last := rows[|rows| - 1];
      var before := PeriodStartMs(rows[..|rows| - 1], period);
      if last.period != period then before
      else if before.Some? && before.value <= CeilMs(last.sourceStart) then before
      else Some(CeilMs(last.sourceStart))
  }

  /** The period's bounds are reached by a row of the period and passed by none. */
  lemma {:induction false} PeriodEndIsGreatest(rows: seq<Band>, period: Period, i: nat)
    requires i < |rows| && rows[i].period == period
    ensures PeriodEndMs(rows, period).Some? && FloorMs(rows[i].sourceEnd) <= PeriodEndMs(rows, period).value
  {
    var last := |rows| - 1;
    if i < last { PeriodEndIsGreatest(rows[..last], period, i); }
  }

  lemma {:induction false} PeriodEndIsReached(rows: seq<Band>, period: Period) returns (j: nat)
    requires PeriodEndMs(rows, period).Some?
    ensures j < |rows| && rows[j].period == period && FloorMs(rows[j].sourceEnd) == PeriodEndMs(rows, period).value
  {
    var last := |rows| - 1;
    if rows[last].period == period && PeriodEndMs(rows, period) == Some(FloorMs(rows[last].sourceEnd)) {
      j := last;
    } else {
      j := PeriodEndIsReached(rows[..last], period);
    }
  }

  lemma {:induction false} PeriodStartIsLeast(rows: seq<Band>, period: Period, i: nat)
    requires i < |rows| && rows[i].period == period
    ensures PeriodStartMs(rows, period).Some? && PeriodStartMs(rows, period).value <= CeilMs(rows[i].sourceStart)
  {
    var last := |rows| - 1;
    if i < last { PeriodStartIsLeast(rows[..last], period, i); }
  }

  lemma {:induction false} PeriodStartIsReached(rows: seq<Band>, period: Period) returns (j: nat)
    requires PeriodStartMs(rows, period).Some?
    ensures j < |rows| && rows[j].period == period && CeilMs(rows[j].sourceStart) == PeriodStartMs(rows, period).value
  {
    var last := |rows| - 1;
    if rows[last].period == period && PeriodStartMs(rows, period) == Some(CeilMs(rows[last].sourceStart)) {
      j := last;
    } else {
      j := PeriodStartIsReached(rows[..last], period);
    }
  }

  // ---- reactions ----

  function WindowStart(rows: seq<Band>, index: nat): int
    requires index < |rows|
  {
    CeilMs(rows[index].sourceStart)
  }

  function WindowEnd(rows: seq<Band>, index: nat): int
    requires index < |rows|
  {
    CeilMs(rows[index].sourceEnd)
  }

  /** The end of the next band of the same period, if there is one. */
  function FollowingEnd(rows: seq<Band>, index: nat): Option<int>
    requires index < |rows|
  {
    if index + 1 < |rows| && rows[index + 1].period == rows[index].period then Some(CeilMs(rows[index + 1].sourceEnd))
    else None
  }

  /** Observations before the first half may lie before its start. */
  function ReactionStart(rows: seq<Band>, period: Period): Option<int> {
    if period == FirstHalf then None else PeriodStartMs(rows, period)
  }

  function ReactionAt(rows: seq<Band>, index: nat, eventId: string, role: string, observed: seq<Metric>): Reaction
    requires index < |rows|
  {
    PeriodEndIsGreatest(rows, rows[index].period, index);
    var start, end := WindowStart(rows, index), WindowEnd(rows, index);
    var following := FollowingEnd(rows, index);
    var periodEnd := PeriodEndMs(rows, rows[index].period).value;
    var before := Before(observed, start, ReactionStart(rows, rows[index].period));
    Reaction(eventId, role,
             Window(start, Some(end), before, After(observed, end, periodEnd)),
             Window(start, following, before,
                    if following.Some? then After(observed, following.value, periodEnd) else None))
  }

  /** How one event's band looks to any role. */
  function ReactionTo(rows: seq<Band>, e: Event, metrics: seq<Metric>): string -> Reaction
    requires EventIndex(rows, e).Some?
  {
    var index := EventIndex(rows, e).value;
    role => ReactionAt(rows, index, e.id, role, RoleRows(metrics, role))
  }

  /** One reaction per role, in the order given. */
  function PerRole(roles: seq<string>, react: string -> Reaction): (r: seq<Reaction>)
    ensures |r| == |roles|
  {
    seq(|roles|, k requires 0 <= k < |roles| => react(roles[k]))
  }

  function ReactionsTo(rows: seq<Band>, e: Event, metrics: seq<Metric>): seq<Reaction>
    requires EventIndex(rows, e).Some?
  {
    PerRole(RoleNames(metrics, |metrics|), ReactionTo(rows, e, metrics))
  }

  /** Every event that gets reactions has a band. */
  predicate AllPlaced(rows: seq<Band>, annotations: seq<Annotation>) {
    forall i :: 0 <= i < |annotations| && !annotations[i].event.shootout ==>
        EventIndex(rows, annotations[i].event).Some?
  }

  /** How the match's bands look to the observed roles, for any event that has a band. */
  function Reactor(rows: seq<Band>, metrics: seq<Metric>): Event --> seq<Reaction> {
    (e: Event) requires EventIndex(rows, e).Some? => ReactionsTo(rows, e, metrics)
  }

  ghost predicate Answers(react: Event --> seq<Reaction>, annotations: seq<Annotation>) {
    forall i :: 0 <= i < |annotations| && !annotations[i].event.shootout ==> react.requires(annotations[i].event)
  }

  /** Reactions to the first n annotations in turn; shootout events have none. */
  function Collect(annotations: seq<Annotation>, n: nat, react: Event --> seq<Reaction>): seq<Reaction>
    requires n <= |annotations| && Answers(react, annotations)
  {
    if n == 0 then []
    else if annotations[n - 1].event.shootout then Collect(annotations, n - 1, react)
    else Collect(annotations, n - 1, react) + react(annotations[n - 1].event)
  }

  function AllReactions(rows: seq<Band>, annotations: seq<Annotation>, metrics: seq<Metric>): seq<Reaction>
    requires AllPlaced(rows, annotations)
  {
    Collect(annotations, |annotations|, Reactor(rows, metrics))
  }

  /** The dictionary of observations by role, filled in arrival order. */
  ghost predicate GroupsFirst(metrics: seq<Metric>, n: nat, byRole: map<string, seq<Metric>>)
    requires n <= |metrics|
  {
    && (forall r :: r in byRole <==> r in RoleNames(metrics, n))
    && (forall r :: r in byRole ==> byRole[r] == RoleMetrics(metrics, n, r))
  }

  lemma {:induction false} AbsentRolesHaveNoMetrics(metrics: seq<Metric>, n: nat, role: string)
    requires n <= |metrics| && role !in RoleNames(metrics, n)
    ensures RoleMetrics(metrics, n, role) == []
  {
    if n > 0 {
      RoleNamesAreTheRoles(metrics, n);
      RoleNamesAreTheRoles(metrics, n - 1);
      AbsentRolesHaveNoMetrics(metrics, n - 1, role);
    }
  }

  lemma {:induction false} GroupStep(metrics: seq<Metric>, n: nat, byRole: map<string, seq<Metric>>)
    requires n < |metrics| && GroupsFirst(metrics, n, byRole)
    ensures var m := metrics[n];
            GroupsFirst(metrics, n + 1, byRole[m.role := (if m.role in byRole then byRole[m.role] else []) + [m]])
  {
    var m := metrics[n];
    if m.role !in byRole { AbsentRolesHaveNoMetrics(metrics, n, m.role); }
    RoleNamesAreTheRoles(metrics, n);
    InsertNameKeepsOrder(m.role, RoleNames(metrics, n));
  }

  method GroupByRole(metrics: seq<Metric>) returns (byRole: map<string, seq<Metric>>)
    ensures GroupsFirst(metrics, |metrics|, byRole)
  {
    byRole := map[];
    var i := 0;
    while i < |metrics|
      invariant 0 <= i <= |metrics|
      invariant GroupsFirst(metrics, i, byRole)
    {
      var m := metrics[i];
      GroupStep(metrics, i, byRole);
      var sofar := if m.role in byRole then byRole[m.role] else [];
      byRole := byRole[m.role := sofar + [m]];
      i := i + 1;
    }
  }

  /** Each role's observations sorted in place. */
  method SortGroups(metrics: seq<Metric>, groups: map<string, seq<Metric>>) returns (byRole: map<string, seq<Metric>>)
    requires GroupsFirst(metrics, |metrics|, groups)
    ensures byRole.Keys == groups.Keys
    ensures forall r :: r in byRole ==> byRole[r] == RoleRows(metrics, r)
  {
    byRole := groups;
    var pending := byRole.Keys;
    while pending != {}
      invariant pending <= byRole.Keys == groups.Keys
      invariant forall r :: r in byRole ==> byRole[r] == if r in pending then groups[r] else RoleRows(metrics, r)
      decreases pending
    {
      var role :| role in pending;
      byRole := byRole[role := Sorting.Sort(byRole[role], MetricLeq)];
      pending := pending - {role};
    }
  }

  lemma {:induction false} CollectOneMore(annotations: seq<Annotation>, n: nat, react: Event --> seq<Reaction>)
    requires n < |annotations| && Answers(react, annotations)
    ensures Collect(annotations, n + 1, react)
         == Collect(annotations, n, react)
            + if annotations[n].event.shootout then [] else react(annotations[n].event)
  {
  }

  /** Whatever answers the events is asked for answers as the roles' own observations do. */
  ghost predicate AnswersByRole(react: Event --> seq<Reaction>, rows: seq<Band>, annotations: seq<Annotation>,
                                roles: seq<string>, metrics: seq<Metric>)
    requires AllPlaced(rows, annotations) && Answers(react, annotations)
  {
    forall i :: 0 <= i < |annotations| && !annotations[i].event.shootout ==>
      react(annotations[i].event) == PerRole(roles, ReactionTo(rows, annotations[i].event, metrics))
  }

  lemma {:induction false} ReactorAnswersByRole(rows: seq<Band>, annotations: seq<Annotation>, metrics: seq<Metric>)
    requires AllPlaced(rows, annotations)
    ensures Answers(Reactor(rows, metrics), annotations)
    ensures AnswersByRole(Reactor(rows, metrics), rows, annotations, RoleNames(metrics, |metrics|), metrics)
  {
  }

  /** One annotation; a shootout's gets no reaction. */
  method ReactToOne(rows: seq<Band>, annotations: seq<Annotation>, i: nat, roles: seq<string>,
                    byRole: map<string, seq<Metric>>, ghost metrics: seq<Metric>,
                    ghost react: Event --> seq<Reaction>)
    returns (own: seq<Reaction>)
    requires i < |annotations| && AllPlaced(rows, annotations) && Answers(react, annotations)
    requires AnswersByRole(react, rows, annotations, roles, metrics)
    requires forall k :: 0 <= k < |roles| ==> roles[k] in byRole && byRole[roles[k]] == RoleRows(metrics, roles[k])
    ensures own == if annotations[i].event.shootout then [] else react(annotations[i].event)
  {
    var e := annotations[i].event;
    if e.shootout {
      return [];
    }
    own := ReactionsOfEvent(rows, e, roles, byRole, metrics);
  }

  /** The loop over annotations, for anything that answers as the loop's body does. */
  method ReactToAll(rows: seq<Band>, annotations: seq<Annotation>, roles: seq<string>,
                    byRole: map<string, seq<Metric>>, ghost metrics: seq<Metric>,
                    ghost react: Event --> seq<Reaction>)
    returns (reactions: seq<Reaction>)
    requires AllPlaced(rows, annotations) && Answers(react, annotations)
    requires AnswersByRole(react, rows, annotations, roles, metrics)
    requires forall k :: 0 <= k < |roles| ==> roles[k] in byRole && byRole[roles[k]] == RoleRows(metrics, roles[k])
    ensures reactions == Collect(annotations, |annotations|, react)
  {
    reactions := [];
    var i := 0;
    while i < |annotations|
      invariant 0 <= i <= |annotations|
      invariant reactions == Collect(annotations, i, react)
    {
      var own := ReactToOne(rows, annotations, i, roles, byRole, metrics, react);
      CollectOneMore(annotations, i, react);
      reactions := reactions + own;
      i := i + 1;
    }
  }

  /** The source's loops over annotations and roles, with two or three bisections per pair. */
  method MarketReactions(rows: seq<Band>, annotations: seq<Annotation>, metrics: seq<Metric>)
    returns (reactions: seq<Reaction>)
    requires AllPlaced(rows, annotations)
    ensures reactions == AllReactions(rows, annotations, metrics)
  {
    var groups := GroupByRole(metrics);
    var byRole := SortGroups(metrics, groups);
    var roles := RoleNames(metrics, |metrics|);
    assert forall k :: 0 <= k < |roles| ==> roles[k] in groups;
    ReactorAnswersByRole(rows, annotations, metrics);
    reactions := ReactToAll(rows, annotations, roles, byRole, metrics, Reactor(rows, metrics));
  }

  method ReactionsOfEvent(rows: seq<Band>, e: Event, roles: seq<string>, byRole: map<string, seq<Metric>>,
                          ghost metrics: seq<Metric>)
    returns (own: seq<Reaction>)
    requires EventIndex(rows, e).Some?
    requires forall k :: 0 <= k < |roles| ==> roles[k] in byRole && byRole[roles[k]] == RoleRows(metrics, roles[k])
    ensures own == PerRole(roles, ReactionTo(rows, e, metrics))
  {
    own := [];
    var k := 0;
    while k < |roles|
      invariant 0 <= k <= |roles|
      invariant own == PerRole(roles, ReactionTo(rows, e, metrics))[..k]
    {
      var reaction := ReactAs(rows, e, roles[k], byRole[roles[k]], metrics);
      PerRoleGrows(roles, ReactionTo(rows, e, metrics), k);
      own := own + [reaction];
      k := k + 1;
    }
  }

  lemma {:induction false} PerRoleGrows(roles: seq<string>, react: string -> Reaction, k: nat)
    requires k < |roles|
    ensures PerRole(roles, react)[..k + 1] == PerRole(roles, react)[..k] + [react(roles[k])]
  {
  }

  method ReactAs(rows: seq<Band>, e: Event, role: string, observed: seq<Metric>, ghost metrics: seq<Metric>)
    returns (r: Reaction)
    requires EventIndex(rows, e).Some? && observed == RoleRows(metrics, role)
    ensures r == ReactionTo(rows, e, metrics)(role)
  {
    RoleRowsAreSorted(metrics, role);
    r := React(rows, EventIndex(rows, e).value, e.id, role, observed);
  }

  /** One pair's reaction: a bisection before the band, one after it, and one after the following band. */
  method React(rows: seq<Band>, index: nat, eventId: string, role: string, observed: seq<Metric>) returns (r: Reaction)
    requires index < |rows| && Ascending(Timestamps(observed))
    ensures r == ReactionAt(rows, index, eventId, role, observed)
  {
    var start, end, following := WindowStart(rows, index), WindowEnd(rows, index), FollowingEnd(rows, index);
    PeriodEndIsGreatest(rows, rows[index].period, index);
    var periodEnd := PeriodEndMs(rows, rows[index].period).value;
    var before := FindBefore(observed, start, ReactionStart(rows, rows[index].period));
    var after := FindAfter(observed, end, periodEnd);
    var afterFollowing := None;
    if following.Some? {
      afterFollowing := FindAfter(observed, following.value, periodEnd);
    }
    r := Reaction(eventId, role, Window(start, Some(end), before, after),
        Window(start, following, before, afterFollowing));
  }

  method FindBefore(rows: seq<Metric>, boundary: int, periodStart: Option<int>) returns (r: Option<Observation>)
    requires Ascending(Timestamps(rows))
    ensures r == Before(rows, boundary, periodStart)
  {
    var index: int := BisectLeft(Timestamps(rows), boundary);
    index := index - 1;
    if index < 0 || (periodStart.Some? && rows[index].timestamp < periodStart.value) {
      return None;
    }
    r := Some(Project(rows[index]));
  }

  method FindAfter(rows: seq<Metric>, boundary: int, periodEnd: int) returns (r: Option<Observation>)
    requires Ascending(Timestamps(rows))
    ensures r == After(rows, boundary, periodEnd)
  {
    var index := BisectLeft(Timestamps(rows), boundary);
    if index >= |rows| || rows[index].timestamp > periodEnd {
      return None;
    }
    r := Some(Project(rows[index]));
  }

  // ---- what is quoted and in which order ----

  /** A quoted observation is the metric's, figure by figure. */
  lemma {:induction false} ProjectionKeepsFigures(m: Metric)
    ensures var o := Project(m);
      o.timestamp == m.timestamp && o.measures.midpoint == m.measures.midpoint && o.measures.spread == m.measures.spread
      && o.measures.bidDepth == m.measures.bidDepth && o.measures.askDepth == m.measures.askDepth
      && o.measures.imbalance == m.measures.imbalance && o.measures.volume == m.measures.volume
      && o.measures.volatility == m.measures.volatility
  {
  }

  /** Names are compared at the first character in which they differ; a name comes before its continuations. */
  lemma {:induction false} NamesCompareLexically(common: string, a: string, b: string)
    ensures Less(common + a, common + b) <==> Less(a, b)
    ensures a != "" && b != "" && a[0] != b[0] ==> (Less(a, b) <==> a[0] < b[0])
    ensures Less("", b) <==> b != ""
    ensures !Less(a, "")
  {
    if common == "" {
      assert common + a == a && common + b == b;
    } else {
      assert (common + a)[0] == common[0] == (common + b)[0];
      assert (common + a)[1..] == common[1..] + a && (common + b)[1..] == common[1..] + b;
      NamesCompareLexically(common[1..], a, b);
    }
  }

  /** A millisecond is a thousand microseconds, and its boundaries are rounded down and up. */
  lemma {:induction false} MillisecondsAreThousands(us: int)
    ensures 0 <= us - 1_000 * FloorMs(us) < 1_000
    ensures 0 <= 1_000 * CeilMs(us) - us < 1_000
  {
  }
}
