/**
 Laying the minute bands on the video. Every band gets the same share of the football seconds; a
 running cursor in exact seconds is rounded half to even to nine decimals where a band begins and
 ends. Rounded positions are kept as whole ticks of 1e-9 seconds.
 */
module VideoTimeline {
  import opened Wrappers
  import opened MatchFacts
  import opened MinuteBands

  const TICKS_PER_SECOND: real := 1000000000.0

  datatype Profile = Profile(regulation: real, preMatch: real, halftime: real, postMatch: real, penalty: real)

  /** One row of the minute table. The shootout's row has no minute and no weight. */
  datatype Band = Band(
    period: Period,
    minute: Option<int>, stoppage: Option<int>,
    sourceStart: int, sourceEnd: int,
    videoStart: int, videoEnd: int,
    weight: Option<real>)

  datatype BandError = NoSourceDuration(period: Period, offset: nat)

  // ---- rounding ----

  /** Nearest integer, ties to even (roundTiesToEven, section 4.3.1 of IEEE 754-2008). */
  function HalfEven(x: real): int {
    var f := x.Floor;
    var d := x - f as real;
    if d < 0.5 || (d == 0.5 && f % 2 == 0) then f else f + 1
  }

  function Ticks(seconds: real): int {
    HalfEven(seconds * TICKS_PER_SECOND)
  }

  /** Rounding both ends of a stretch of time moves its length by at most one tick. */
  lemma {:induction false} RoundedLength(c: real, step: real)
    ensures -1.0 <= (Ticks(c + step) - Ticks(c)) as real - step * TICKS_PER_SECOND <= 1.0
  {
  }

  /** Two equal stretches can differ by two ticks once rounded, and by no more. */
  lemma {:induction false} UniformWithinTwoTicks(c: real, c': real, step: real)
    ensures -2 <= (Ticks(c + step) - Ticks(c)) - (Ticks(c' + step) - Ticks(c')) <= 2
  {
    RoundedLength(c, step);
    RoundedLength(c', step);
  }

  /** The bound is reached by neighbouring bands three ticks long that start half a tick off the grid. */
  lemma {:induction false} TwoTicksAreReached()
    ensures Ticks(0.0000000035) - Ticks(0.0000000005) == 4
    ensures Ticks(0.0000000065) - Ticks(0.0000000035) == 2
  {
    assert 0.0000000005 * TICKS_PER_SECOND == 0.5;
    assert 0.0000000035 * TICKS_PER_SECOND == 3.5;
    assert 0.0000000065 * TICKS_PER_SECOND == 6.5;
  }

  // ---- durations ----

  function Duration(facts: Facts, events: seq<Event>, profile: Profile): real {
    var extra := if facts.firstExtraStart.Some? then 30.0 else 0.0;
    if extra == 0.0 && !HasPenalties(events) then profile.regulation
    else
      var wanted := profile.regulation + 0.5 * extra + PenaltySeconds(events, profile);
      if profile.regulation + 20.0 <= wanted then profile.regulation + 20.0 else wanted
  }

  function PenaltySeconds(events: seq<Event>, profile: Profile): real {
    if HasPenalties(events) then profile.penalty else 0.0
  }

  function FootballSeconds(facts: Facts, events: seq<Event>, profile: Profile): real {
    Duration(facts, events, profile) - profile.preMatch - profile.halftime - profile.postMatch
    - PenaltySeconds(events, profile)
  }

  function Weights(specs: seq<PeriodSpec>): (w: nat)
    requires forall i :: 0 <= i < |specs| ==> specs[i].Valid()
    ensures specs != [] ==> w > 0
  {
    if specs == [] then 0 else specs[0].Count() + Weights(specs[1..])
  }

  // ---- rows ----

  /** The cursor after k steps, one addition at a time as the builder takes them. */
  function Advance(cursor: real, step: real, k: nat): real {
    if k == 0 then cursor else Advance(cursor, step, k - 1) + step
  }

  lemma {:induction false} AdvanceIsScaled(cursor: real, step: real, k: nat)
    ensures Advance(cursor, step, k) == cursor + k as real * step
  {
    if k > 0 { AdvanceIsScaled(cursor, step, k - 1); }
  }

  function SpecBand(spec: PeriodSpec, cursor: real, step: real, k: nat): Band
    requires spec.Valid() && k < spec.Count()
  {
    Band(spec.period, Some(spec.Label(k).0), spec.Label(k).1, spec.BandStart(k), spec.BandEnd(k),
         Ticks(Advance(cursor, step, k)), Ticks(Advance(cursor, step, k + 1)), Some(1.0))
  }

  function SpecBands(spec: PeriodSpec, cursor: real, step: real): (rows: seq<Band>)
    requires spec.Valid()
    ensures |rows| == spec.Count()
  {
    seq(spec.Count(), k requires 0 <= k < spec.Count() => SpecBand(spec, cursor, step, k))
  }

  /** Video inserted after a period: only the first half has one. */
  function InsertAfter(spec: PeriodSpec, halftime: real): real {
    if spec.period == FirstHalf then halftime else 0.0
  }

  function NextCursor(spec: PeriodSpec, cursor: real, step: real, halftime: real): real
    requires spec.Valid()
  {
    Advance(cursor, step, spec.Count()) + InsertAfter(spec, halftime)
  }

  function RegularBands(specs: seq<PeriodSpec>, cursor: real, step: real, halftime: real): seq<Band>
    requires forall i :: 0 <= i < |specs| ==> specs[i].Valid()
  {
    if specs == [] then []
    else SpecBands(specs[0], cursor, step)
         + RegularBands(specs[1..], NextCursor(specs[0], cursor, step, halftime), step, halftime)
  }

  function CursorAfter(specs: seq<PeriodSpec>, cursor: real, step: real, halftime: real): real
    requires forall i :: 0 <= i < |specs| ==> specs[i].Valid()
  {
    if specs == [] then cursor
    else CursorAfter(specs[1..], NextCursor(specs[0], cursor, step, halftime), step, halftime)
  }

  /** The first band, if any, that the builder refuses. */
  function Misfit(spec: PeriodSpec, from: nat): (r: Option<nat>)
    requires spec.Valid() && from <= spec.Count()
    ensures r.None? <==> forall k :: from <= k < spec.Count() ==> spec.BandFits(k)
    ensures r.Some? ==> from <= r.value < spec.Count() && !spec.BandFits(r.value)
                        && forall k :: from <= k < r.value ==> spec.BandFits(k)
    decreases spec.Count() - from
  {
    if from == spec.Count() then None
    else if !spec.BandFits(from) then Some(from)
    else Misfit(spec, from + 1)
  }

  function FirstMisfit(specs: seq<PeriodSpec>): (r: Option<BandError>)
    requires forall i :: 0 <= i < |specs| ==> specs[i].Valid()
    ensures r.None? <==> forall i :: 0 <= i < |specs| ==> Misfit(specs[i], 0).None?
  {
    if specs == [] then None
    else match Misfit(specs[0], 0)
         case Some(k) => Some(NoSourceDuration(specs[0].period, k))
         case None => FirstMisfit(specs[1..])
  }

  /** What the builder's loops yield: every row and the final cursor, or the first band without source time. */
  function MinuteRows(specs: seq<PeriodSpec>, cursor: real, step: real, halftime: real)
    : Result<(seq<Band>, real), BandError>
    requires forall i :: 0 <= i < |specs| ==> specs[i].Valid()
  {
    match FirstMisfit(specs)
    case Some(defect) => Failure(defect)
    case None => Success((RegularBands(specs, cursor, step, halftime), CursorAfter(specs, cursor, step, halftime)))
  }

  /** The builder's inner loop: one row per minute of a period, the cursor advancing before each is tested. */
  method BuildPeriodRows(spec: PeriodSpec, cursor: real, step: real)
    returns (defect: Option<nat>, rows: seq<Band>, next: real)
    requires spec.Valid()
    ensures defect == Misfit(spec, 0)
    ensures defect.None? ==> rows == SpecBands(spec, cursor, step) && next == Advance(cursor, step, spec.Count())
  {
    rows, next := [], cursor;
    var offset := 0;
    while offset < spec.Count()
      invariant 0 <= offset <= spec.Count()
      invariant Misfit(spec, 0) == Misfit(spec, offset)
      invariant next == Advance(cursor, step, offset)
      invariant rows == SpecBands(spec, cursor, step)[..offset]
    {
      var videoStart := next;
      next := next + step;
      if !spec.BandFits(offset) {
        return Some(offset), rows, next;
      }
      var name := spec.Label(offset);
      rows := rows + [Band(spec.period, Some(name.0), name.1, spec.BandStart(offset), spec.BandEnd(offset),
                           Ticks(videoStart), Ticks(next), Some(1.0))];
      offset := offset + 1;
    }
    defect := None;
  }

  ghost predicate AllValid(specs: seq<PeriodSpec>) {
    forall i :: 0 <= i < |specs| ==> specs[i].Valid()
  }

  /** With the given rows and cursor, the periods still to come complete the work. */
  ghost predicate Completes(specs: seq<PeriodSpec>, preMatch: real, step: real, halftime: real, rest: seq<PeriodSpec>,
                            rows: seq<Band>, cursor: real)
    requires AllValid(specs) && AllValid(rest)
  {
    && FirstMisfit(specs) == FirstMisfit(rest)
    && rows + RegularBands(rest, cursor, step, halftime) == RegularBands(specs, preMatch, step, halftime)
    && CursorAfter(rest, cursor, step, halftime) == CursorAfter(specs, preMatch, step, halftime)
  }

  lemma {:induction false} OnePeriodMore(specs: seq<PeriodSpec>, preMatch: real, step: real, halftime: real,
                                         rest: seq<PeriodSpec>, rows: seq<Band>, cursor: real)
    requires AllValid(specs) && AllValid(rest) && rest != [] && Misfit(rest[0], 0).None?
    requires Completes(specs, preMatch, step, halftime, rest, rows, cursor)
    ensures Completes(specs, preMatch, step, halftime, rest[1..],
                      rows + SpecBands(rest[0], cursor, step), NextCursor(rest[0], cursor, step, halftime))
  {
    var own, next := SpecBands(rest[0], cursor, step), NextCursor(rest[0], cursor, step, halftime);
    var later := RegularBands(rest[1..], next, step, halftime);
    assert rows + (own + later) == (rows + own) + later;
  }

  /** The builder's outer loop over the played periods. */
  method BuildMinuteRows(specs: seq<PeriodSpec>, preMatch: real, step: real, halftime: real)
    returns (r: Result<(seq<Band>, real), BandError>)
    requires forall i :: 0 <= i < |specs| ==> specs[i].Valid()
    ensures r == MinuteRows(specs, preMatch, step, halftime)
  {
    var rows: seq<Band> := [];
    var cursor := preMatch;
    var i := 0;
    assert specs[0..] == specs && AllValid(specs);
    while i < |specs|
      invariant 0 <= i <= |specs| && AllValid(specs[i..])
      invariant Completes(specs, preMatch, step, halftime, specs[i..], rows, cursor)
    {
      ghost var rest := specs[i..];
      assert rest[0] == specs[i] && rest[1..] == specs[i + 1..];
      var defect, periodRows, next := BuildPeriodRows(specs[i], cursor, step);
      if defect.Some? {
        return Failure(NoSourceDuration(specs[i].period, defect.value));
      }
      OnePeriodMore(specs, preMatch, step, halftime, rest, rows, cursor);
      cursor := next + InsertAfter(specs[i], halftime);
      rows := rows + periodRows;
      i := i + 1;
    }
    assert rows + [] == rows;
    r := Success((rows, cursor));
  }

  // ---- facts about rows ----

  lemma {:induction false} AdvanceIsMonotone(cursor: real, step: real, i: nat, j: nat)
    requires i <= j && step >= 0.0
    ensures Advance(cursor, step, i) <= Advance(cursor, step, j)
  {
    if i < j { AdvanceIsMonotone(cursor, step, i, j - 1); }
  }

  lemma {:induction false} CursorAdvances(specs: seq<PeriodSpec>, cursor: real, step: real, halftime: real)
    requires forall k :: 0 <= k < |specs| ==> specs[k].Valid()
    requires step >= 0.0 && halftime >= 0.0
    ensures cursor <= CursorAfter(specs, cursor, step, halftime)
  {
    if specs != [] {
      AdvanceIsMonotone(cursor, step, 0, specs[0].Count());
      CursorAdvances(specs[1..], NextCursor(specs[0], cursor, step, halftime), step, halftime);
    }
  }

  /** Every row's video bounds are one step of the cursor, rounded. */
  lemma {:induction false} RowIsOneStep(specs: seq<PeriodSpec>, cursor: real, step: real, halftime: real, i: nat)
    returns (c: real)
    requires forall k :: 0 <= k < |specs| ==> specs[k].Valid()
    requires i < |RegularBands(specs, cursor, step, halftime)|
    ensures var row := RegularBands(specs, cursor, step, halftime)[i];
            row.videoStart == Ticks(c) && row.videoEnd == Ticks(c + step) && row.weight == Some(1.0)
    ensures step >= 0.0 && halftime >= 0.0 ==>
              cursor <= c && c + step <= CursorAfter(specs, cursor, step, halftime)
  {
    var spec := specs[0];
    var n := spec.Count();
    var next := NextCursor(spec, cursor, step, halftime);
    if i < n {
      c := Advance(cursor, step, i);
      assert RegularBands(specs, cursor, step, halftime)[i] == SpecBand(spec, cursor, step, i);
      if step >= 0.0 && halftime >= 0.0 {
        AdvanceIsMonotone(cursor, step, 0, i);
        AdvanceIsMonotone(cursor, step, i + 1, n);
        CursorAdvances(specs[1..], next, step, halftime);
      }
    } else {
      c := RowIsOneStep(specs[1..], next, step, halftime, i - n);
      if step >= 0.0 { AdvanceIsMonotone(cursor, step, 0, n); }
    }
  }

  /** No row starts, on the video, before an earlier one has ended. */
  lemma {:induction false} RowsAdvance(specs: seq<PeriodSpec>, cursor: real, step: real, halftime: real, i: nat, j: nat)
    requires forall k :: 0 <= k < |specs| ==> specs[k].Valid()
    requires step >= 0.0 && halftime >= 0.0
    requires i < j < |RegularBands(specs, cursor, step, halftime)|
    ensures RegularBands(specs, cursor, step, halftime)[i].videoEnd
         <= RegularBands(specs, cursor, step, halftime)[j].videoStart
  {
    var spec := specs[0];
    var n := spec.Count();
    var next := NextCursor(spec, cursor, step, halftime);
    if j < n {
      AdvanceIsMonotone(cursor, step, i + 1, j);
    } else if i < n {
      var c := RowIsOneStep(specs[1..], next, step, halftime, j - n);
      AdvanceIsMonotone(cursor, step, i + 1, n);
    } else {
      RowsAdvance(specs[1..], next, step, halftime, i - n, j - n);
    }
  }

  function Length(row: Band): int {
    row.videoEnd - row.videoStart
  }

  ghost predicate WithinTwoTicks(rows: seq<Band>) {
    forall i, j :: 0 <= i < |rows| && 0 <= j < |rows| ==> Length(rows[i]) - Length(rows[j]) <= 2
  }

  /** Any two rows' rounded lengths differ by at most two ticks, whatever the profile. */
  lemma {:induction false} VideoBandsAreUniform(specs: seq<PeriodSpec>, cursor: real, step: real, halftime: real)
    requires forall k :: 0 <= k < |specs| ==> specs[k].Valid()
    ensures WithinTwoTicks(RegularBands(specs, cursor, step, halftime))
  {
    var rows := RegularBands(specs, cursor, step, halftime);
    forall i, j | 0 <= i < |rows| && 0 <= j < |rows|
      ensures Length(rows[i]) - Length(rows[j]) <= 2
    {
      var c := RowIsOneStep(specs, cursor, step, halftime, i);
      var c' := RowIsOneStep(specs, cursor, step, halftime, j);
      UniformWithinTwoTicks(c, c', step);
    }
  }

  /** A stretch of this length is on screen for at least one tick when it begins at c. */
  ghost predicate Appears(c: real, step: real) {
    Ticks(c) < Ticks(c + step)
  }

  /** Only a step of more than one tick appears wherever it begins: a tick from 1.5 to 2.5 rounds away. */
  lemma {:induction false} WideStepsAlwaysAppear(step: real)
    ensures (forall c :: Appears(c, step)) <==> step * TICKS_PER_SECOND > 1.0
  {
    if step * TICKS_PER_SECOND > 1.0 {
      forall c ensures Appears(c, step) { RoundedLength(c, step); }
    } else {
      var c := 0.0000000015;
      assert c * TICKS_PER_SECOND == 1.5 && (c + step) * TICKS_PER_SECOND == 1.5 + step * TICKS_PER_SECOND;
      assert !Appears(c, step);
    }
  }

  /** Every row is on screen for at least one tick. */
  ghost predicate PositiveVideo(rows: seq<Band>) {
    forall i :: 0 <= i < |rows| ==> rows[i].videoStart < rows[i].videoEnd
  }

  lemma {:induction false} WideStepsGivePositiveVideo(specs: seq<PeriodSpec>, cursor: real, step: real, halftime: real)
    requires forall k :: 0 <= k < |specs| ==> specs[k].Valid()
    requires step * TICKS_PER_SECOND > 1.0
    ensures PositiveVideo(RegularBands(specs, cursor, step, halftime))
  {
    var rows := RegularBands(specs, cursor, step, halftime);
    forall i | 0 <= i < |rows| ensures rows[i].videoStart < rows[i].videoEnd {
      var c := RowIsOneStep(specs, cursor, step, halftime, i);
      RoundedLength(c, step);
    }
  }

  /** A step that is not positive leaves every row empty on the video. */
  lemma {:induction false} PositiveVideoNeedsPositiveStep(specs: seq<PeriodSpec>, cursor: real, step: real,
                                                          halftime: real)
    requires forall k :: 0 <= k < |specs| ==> specs[k].Valid()
    requires PositiveVideo(RegularBands(specs, cursor, step, halftime))
    requires RegularBands(specs, cursor, step, halftime) != []
    ensures step > 0.0
  {
    var c := RowIsOneStep(specs, cursor, step, halftime, 0);
  }

  // ---- conservation ----

  function Inserts(specs: seq<PeriodSpec>, halftime: real): real {
    if specs == [] then 0.0 else InsertAfter(specs[0], halftime) + Inserts(specs[1..], halftime)
  }

  lemma {:induction false} CursorCountsEveryBand(specs: seq<PeriodSpec>, cursor: real, step: real, halftime: real)
    requires forall k :: 0 <= k < |specs| ==> specs[k].Valid()
    ensures CursorAfter(specs, cursor, step, halftime)
         == cursor + Weights(specs) as real * step + Inserts(specs, halftime)
  {
    if specs != [] {
      var n, rest := specs[0].Count(), Weights(specs[1..]);
      CursorCountsEveryBand(specs[1..], NextCursor(specs[0], cursor, step, halftime), step, halftime);
      AdvanceIsScaled(cursor, step, n);
      assert (n + rest) as real * step == n as real * step + rest as real * step;
    }
  }

  lemma {:induction false} LaterPeriodsHaveNoInsert(specs: seq<PeriodSpec>, halftime: real)
    requires forall k :: 0 <= k < |specs| ==> specs[k].period != FirstHalf
    ensures Inserts(specs, halftime) == 0.0
  {
    if specs != [] { LaterPeriodsHaveNoInsert(specs[1..], halftime); }
  }

  lemma {:induction false} SharesAddUp(x: real, n: nat)
    requires n > 0
    ensures n as real * (x / n as real) == x
  {
  }

  function Step(facts: Facts, events: seq<Event>, profile: Profile): real
    requires PeriodsInOrder(facts)
  {
    OrderedPeriodsGiveValidSpecs(facts, events);
    FootballSeconds(facts, events, profile) / Weights(MinuteSpecs(facts, events)) as real
  }

  lemma {:induction false} SharesCarryTheCursor(specs: seq<PeriodSpec>, cursor: real, step: real, football: real,
                                                halftime: real)
    requires ValidSpecs(specs) && specs != [] && specs[0].period == FirstHalf
    requires Weights(specs) as real * step == football
    ensures CursorAfter(specs, cursor, step, halftime) == cursor + football + halftime
  {
    CursorCountsEveryBand(specs, cursor, step, halftime);
    assert forall k :: 0 <= k < |specs[1..]| ==> specs[1..][k] == specs[k + 1];
    LaterPeriodsHaveNoInsert(specs[1..], halftime);
  }

  /** Equal shares carry the cursor through all the football and the halftime insert. */
  lemma {:induction false} SharesFillTheFootball(specs: seq<PeriodSpec>, cursor: real, football: real, halftime: real)
    requires ValidSpecs(specs) && specs != [] && specs[0].period == FirstHalf
    ensures CursorAfter(specs, cursor, football / Weights(specs) as real, halftime) == cursor + football + halftime
  {
    SharesAddUp(football, Weights(specs));
    SharesCarryTheCursor(specs, cursor, football / Weights(specs) as real, football, halftime);
  }

  /** The last band ends exactly where the shootout and the closing segment are due to begin. */
  lemma {:induction false} CursorMeetsTheEnd(facts: Facts, events: seq<Event>, profile: Profile)
    requires PeriodsInOrder(facts)
    ensures ValidSpecs(MinuteSpecs(facts, events))
    ensures CursorAfter(MinuteSpecs(facts, events), profile.preMatch, Step(facts, events, profile), profile.halftime)
         == Duration(facts, events, profile) - profile.postMatch - PenaltySeconds(events, profile)
  {
    OrderedPeriodsGiveValidSpecs(facts, events);
    SharesFillTheFootball(MinuteSpecs(facts, events), profile.preMatch,
                          FootballSeconds(facts, events, profile), profile.halftime);
  }

  datatype SegmentKind = PreMatch | FootballMinute | Halftime | Shootout | PostMatch
  datatype Segment = Segment(kind: SegmentKind, start: real, end: real)

  function BandSegments(spec: PeriodSpec, cursor: real, step: real): seq<Segment>
    requires spec.Valid()
  {
    seq(spec.Count(), k requires 0 <= k < spec.Count() =>
      Segment(FootballMinute, Advance(cursor, step, k), Advance(cursor, step, k + 1)))
  }

  function PeriodSegments(specs: seq<PeriodSpec>, cursor: real, step: real, halftime: real): seq<Segment>
    requires forall k :: 0 <= k < |specs| ==> specs[k].Valid()
  {
    if specs == [] then []
    else
      var bandsEnd := Advance(cursor, step, specs[0].Count());
      BandSegments(specs[0], cursor, step)
      + (if specs[0].period == FirstHalf && halftime != 0.0
         then [Segment(Halftime, bandsEnd, bandsEnd + halftime)] else [])
      + PeriodSegments(specs[1..], NextCursor(specs[0], cursor, step, halftime), step, halftime)
  }

  function OpeningSegments(profile: Profile): seq<Segment> {
    if profile.preMatch != 0.0 then [Segment(PreMatch, 0.0, profile.preMatch)] else []
  }

  function FootballSegments(facts: Facts, events: seq<Event>, profile: Profile): seq<Segment>
    requires PeriodsInOrder(facts)
  {
    OrderedPeriodsGiveValidSpecs(facts, events);
    PeriodSegments(MinuteSpecs(facts, events), profile.preMatch, Step(facts, events, profile), profile.halftime)
  }

  function FootballEnd(facts: Facts, events: seq<Event>, profile: Profile): real
    requires PeriodsInOrder(facts)
  {
    OrderedPeriodsGiveValidSpecs(facts, events);
    CursorAfter(MinuteSpecs(facts, events), profile.preMatch, Step(facts, events, profile), profile.halftime)
  }

  function ShootoutSegments(facts: Facts, events: seq<Event>, profile: Profile): seq<Segment>
    requires PeriodsInOrder(facts)
  {
    if HasPenalties(events) then
      [Segment(Shootout, FootballEnd(facts, events, profile), Duration(facts, events, profile) - profile.postMatch)]
    else []
  }

  function ClosingSegments(facts: Facts, events: seq<Event>, profile: Profile): seq<Segment> {
    var duration := Duration(facts, events, profile);
    if profile.postMatch != 0.0 then [Segment(PostMatch, duration - profile.postMatch, duration)] else []
  }

  /** Everything after the pre-match segment. */
  function AfterOpening(facts: Facts, events: seq<Event>, profile: Profile): seq<Segment>
    requires PeriodsInOrder(facts)
  {
    FootballSegments(facts, events, profile) + ShootoutSegments(facts, events, profile)
        + ClosingSegments(facts, events, profile)
  }

  /** Every segment the builder emits, in playing order and before rounding. */
  function Timeline(facts: Facts, events: seq<Event>, profile: Profile): seq<Segment>
    requires PeriodsInOrder(facts)
  {
    OpeningSegments(profile) + AfterOpening(facts, events, profile)
  }

  /** The segments run from one instant to another, each starting where the previous one ends. */
  ghost predicate Chains(segments: seq<Segment>, from: real, to: real) {
    if segments == [] then from == to
    else segments[0].start == from && Chains(segments[1..], segments[0].end, to)
  }

  lemma {:induction false} ChainsConcatenate(a: seq<Segment>, b: seq<Segment>, from: real, middle: real, to: real)
    requires Chains(a, from, middle) && Chains(b, middle, to)
    ensures Chains(a + b, from, to)
  {
    if a == [] {
      assert a + b == b;
    } else {
      assert (a + b)[1..] == a[1..] + b;
      ChainsConcatenate(a[1..], b, a[0].end, middle, to);
    }
  }

  lemma {:induction false} BandsChain(spec: PeriodSpec, cursor: real, step: real, k: nat)
    requires spec.Valid() && k <= spec.Count()
    ensures Chains(BandSegments(spec, cursor, step)[k..], Advance(cursor, step, k),
                   Advance(cursor, step, spec.Count()))
    decreases spec.Count() - k
  {
    var bands := BandSegments(spec, cursor, step);
    if k < spec.Count() {
      BandsChain(spec, cursor, step, k + 1);
      assert bands[k..][1..] == bands[k + 1..];
    }
  }

  lemma {:induction false} PeriodsChain(specs: seq<PeriodSpec>, cursor: real, step: real, halftime: real)
    requires forall k :: 0 <= k < |specs| ==> specs[k].Valid()
    ensures Chains(PeriodSegments(specs, cursor, step, halftime), cursor, CursorAfter(specs, cursor, step, halftime))
  {
    if specs != [] {
      var spec := specs[0];
      var bands := BandSegments(spec, cursor, step);
      var bandsEnd := Advance(cursor, step, spec.Count());
      var next := NextCursor(spec, cursor, step, halftime);
      var insert :=
        if spec.period == FirstHalf && halftime != 0.0 then [Segment(Halftime, bandsEnd, bandsEnd + halftime)] else [];
      BandsChain(spec, cursor, step, 0);
      assert bands[0..] == bands;
      assert Chains(insert, bandsEnd, next);
      ChainsConcatenate(bands, insert, cursor, bandsEnd, next);
      PeriodsChain(specs[1..], next, step, halftime);
      ChainsConcatenate(bands + insert, PeriodSegments(specs[1..], next, step, halftime), cursor, next,
                        CursorAfter(specs, cursor, step, halftime));
    }
  }

  lemma {:induction false} ClosingChains(football: seq<Segment>, shootout: seq<Segment>, ending: seq<Segment>,
                                         from: real, cursor: real, closing: real, to: real)
    requires Chains(football, from, cursor)
    requires shootout == [Segment(Shootout, cursor, closing)] || (shootout == [] && cursor == closing)
    requires ending == [Segment(PostMatch, closing, to)] || (ending == [] && closing == to)
    ensures Chains(football + shootout + ending, from, to)
  {
    assert shootout != [] ==> shootout[1..] == [];
    assert ending != [] ==> ending[1..] == [];
    ChainsConcatenate(football, shootout, from, cursor, closing);
    ChainsConcatenate(football + shootout, ending, from, closing, to);
  }

  lemma {:induction false} FootballChains(facts: Facts, events: seq<Event>, profile: Profile)
    requires PeriodsInOrder(facts)
    ensures Chains(FootballSegments(facts, events, profile), profile.preMatch, FootballEnd(facts, events, profile))
  {
    OrderedPeriodsGiveValidSpecs(facts, events);
    PeriodsChain(MinuteSpecs(facts, events), profile.preMatch, Step(facts, events, profile), profile.halftime);
  }

  lemma {:induction false} AfterOpeningChains(facts: Facts, events: seq<Event>, profile: Profile)
    requires PeriodsInOrder(facts)
    ensures Chains(AfterOpening(facts, events, profile), profile.preMatch, Duration(facts, events, profile))
  {
    var duration := Duration(facts, events, profile);
    FootballChains(facts, events, profile);
    CursorMeetsTheEnd(facts, events, profile);
    ClosingChains(FootballSegments(facts, events, profile), ShootoutSegments(facts, events, profile),
                  ClosingSegments(facts, events, profile),
                  profile.preMatch, FootballEnd(facts, events, profile), duration - profile.postMatch, duration);
  }

  /** Before rounding, the segments tile [0, duration] for every profile: no gap and no overlap. */
  lemma {:induction false} TimelineIsConserved(facts: Facts, events: seq<Event>, profile: Profile)
    requires PeriodsInOrder(facts)
    ensures Chains(Timeline(facts, events, profile), 0.0, Duration(facts, events, profile))
  {
    AfterOpeningChains(facts, events, profile);
    var opening := OpeningSegments(profile);
    assert Chains(opening, 0.0, profile.preMatch);
    ChainsConcatenate(opening, AfterOpening(facts, events, profile), 0.0, profile.preMatch,
        Duration(facts, events, profile));
  }

  ghost predicate RunForward(segments: seq<Segment>) {
    forall k :: 0 <= k < |segments| ==> segments[k].start <= segments[k].end
  }

  lemma {:induction false} ForwardJoins(a: seq<Segment>, b: seq<Segment>)
    ensures RunForward(a + b) <==> RunForward(a) && RunForward(b)
  {
    var all := a + b;
    if RunForward(all) {
      forall k | 0 <= k < |a| ensures a[k].start <= a[k].end { assert all[k] == a[k]; }
      forall k | 0 <= k < |b| ensures b[k].start <= b[k].end { assert all[|a| + k] == b[k]; }
    }
  }

  lemma {:induction false} BandsRunForward(spec: PeriodSpec, cursor: real, step: real)
    requires spec.Valid()
    ensures RunForward(BandSegments(spec, cursor, step)) <==> step >= 0.0
  {
    var bands := BandSegments(spec, cursor, step);
    assert bands[0].end == bands[0].start + step;
  }

  lemma {:induction false} LaterSegmentsRunForward(specs: seq<PeriodSpec>, cursor: real, step: real, halftime: real)
    requires forall k :: 0 <= k < |specs| ==> specs[k].Valid() && specs[k].period != FirstHalf
    requires step >= 0.0
    ensures RunForward(PeriodSegments(specs, cursor, step, halftime))
  {
    if specs != [] {
      var bands, next := BandSegments(specs[0], cursor, step), NextCursor(specs[0], cursor, step, halftime);
      BandsRunForward(specs[0], cursor, step);
      LaterSegmentsRunForward(specs[1..], next, step, halftime);
      ForwardJoins(bands + [], PeriodSegments(specs[1..], next, step, halftime));
      assert bands + [] == bands;
    }
  }

  /** No football or halftime segment runs backwards exactly when neither the step nor the insert is negative. */
  lemma {:induction false} SegmentsRunForward(specs: seq<PeriodSpec>, cursor: real, step: real, halftime: real)
    requires ValidSpecs(specs) && specs != [] && specs[0].period == FirstHalf
    ensures RunForward(PeriodSegments(specs, cursor, step, halftime)) <==> step >= 0.0 && halftime >= 0.0
  {
    assert ValidSpec(specs[0]);
    var bandsEnd, next := Advance(cursor, step, specs[0].Count()), NextCursor(specs[0], cursor, step, halftime);
    var bands, rest := BandSegments(specs[0], cursor, step), PeriodSegments(specs[1..], next, step, halftime);
    var insert := if halftime != 0.0 then [Segment(Halftime, bandsEnd, bandsEnd + halftime)] else [];
    BandsRunForward(specs[0], cursor, step);
    ForwardJoins(bands, insert);
    ForwardJoins(bands + insert, rest);
    if step >= 0.0 { LaterSegmentsRunForward(specs[1..], next, step, halftime); }
    assert halftime != 0.0 ==> insert[0].end == insert[0].start + halftime;
  }

  // ---- what is reported ----

  function Nearest(seconds: real): real {
    Ticks(seconds) as real / TICKS_PER_SECOND
  }

  /** Positions are rounded, except the end of the pre-match segment and the very end of the video. */
  function Reported(s: Segment): Segment {
    match s.kind
    case PreMatch => s
    case PostMatch => Segment(PostMatch, Nearest(s.start), s.end)
    case _ => Segment(s.kind, Nearest(s.start), Nearest(s.end))
  }

  function ReportedAll(segments: seq<Segment>): seq<Segment> {
    if segments == [] then [] else [Reported(segments[0])] + ReportedAll(segments[1..])
  }

  /** Rounding opens no gap between segments that met exactly, once the pre-match segment is behind. */
  lemma {:induction false} RoundingKeepsChains(segments: seq<Segment>, from: real, to: real)
    requires Chains(segments, from, to)
    requires forall i :: 0 <= i < |segments| ==> segments[i].kind != PreMatch
    requires forall i :: 0 <= i < |segments| - 1 ==> segments[i].kind != PostMatch
    ensures Chains(ReportedAll(segments), Nearest(from),
                   if segments != [] && segments[|segments| - 1].kind == PostMatch then to else Nearest(to))
  {
    if |segments| == 1 {
      assert segments[1..] == [];
    } else if segments != [] {
      RoundingKeepsChains(segments[1..], segments[0].end, to);
    }
  }

  /**
   The reported segments of a video with an opening meet everywhere exactly when the opening's length
   is a whole number of ticks: its end is the one seam reported unrounded on one side only.
   */
  lemma {:induction false} ReportedTimelineMeets(opening: Segment, rest: seq<Segment>, to: real)
    requires opening.kind == PreMatch && opening.start == 0.0
    requires rest != [] && Chains([opening] + rest, 0.0, to)
    requires forall i :: 0 <= i < |rest| ==> rest[i].kind != PreMatch
    requires forall i :: 0 <= i < |rest| - 1 ==> rest[i].kind != PostMatch
    ensures Chains(ReportedAll([opening] + rest), 0.0, if rest[|rest| - 1].kind == PostMatch then to else Nearest(to))
       <==> Nearest(opening.end) == opening.end
  {
    var all := [opening] + rest;
    assert all[1..] == rest;
    RoundingKeepsChains(rest, opening.end, to);
    assert ReportedAll(all) == [opening] + ReportedAll(rest);
    assert ReportedAll(all)[1..] == ReportedAll(rest);
    assert ReportedAll(rest)[0].start == Nearest(opening.end);
  }

  // ---- the builder's own timeline ----

  lemma {:induction false} PeriodSegmentKinds(specs: seq<PeriodSpec>, cursor: real, step: real, halftime: real)
    requires forall k :: 0 <= k < |specs| ==> specs[k].Valid()
    ensures forall s :: s in PeriodSegments(specs, cursor, step, halftime) ==>
        s.kind == FootballMinute || s.kind == Halftime
    ensures specs != [] ==> PeriodSegments(specs, cursor, step, halftime) != []
  {
    if specs != [] {
      var bands, next := BandSegments(specs[0], cursor, step), NextCursor(specs[0], cursor, step, halftime);
      assert forall k :: 0 <= k < |bands| ==> bands[k].kind == FootballMinute;
      PeriodSegmentKinds(specs[1..], next, step, halftime);
    }
  }

  /** Never an opening again, and a closing segment only at the very end. */
  ghost predicate KindsAreInOrder(rest: seq<Segment>, closes: bool) {
    && rest != []
    && (forall i :: 0 <= i < |rest| ==> rest[i].kind != PreMatch)
    && (forall i :: 0 <= i < |rest| - 1 ==> rest[i].kind != PostMatch)
    && (rest[|rest| - 1].kind == PostMatch <==> closes)
  }

  lemma {:induction false} KindsInOrder(football: seq<Segment>, shootout: seq<Segment>, ending: seq<Segment>)
    requires football != [] && forall s :: s in football ==> s.kind == FootballMinute || s.kind == Halftime
    requires |shootout| <= 1 && forall k :: 0 <= k < |shootout| ==> shootout[k].kind == Shootout
    requires |ending| <= 1 && forall k :: 0 <= k < |ending| ==> ending[k].kind == PostMatch
    ensures KindsAreInOrder(football + shootout + ending, ending != [])
  {
    forall i | 0 <= i < |football| ensures football[i].kind == FootballMinute || football[i].kind == Halftime {
      assert football[i] in football;
    }
  }

  lemma {:induction false} FootballKinds(facts: Facts, events: seq<Event>, profile: Profile)
    requires PeriodsInOrder(facts)
    ensures FootballSegments(facts, events, profile) != []
    ensures forall s :: s in FootballSegments(facts, events, profile) ==> s.kind == FootballMinute || s.kind == Halftime
  {
    OrderedPeriodsGiveValidSpecs(facts, events);
    PeriodSegmentKinds(MinuteSpecs(facts, events), profile.preMatch, Step(facts, events, profile), profile.halftime);
  }

  lemma {:induction false} AfterOpeningKinds(facts: Facts, events: seq<Event>, profile: Profile)
    requires PeriodsInOrder(facts)
    ensures KindsAreInOrder(AfterOpening(facts, events, profile), profile.postMatch != 0.0)
  {
    FootballKinds(facts, events, profile);
    KindsInOrder(FootballSegments(facts, events, profile), ShootoutSegments(facts, events, profile),
        ClosingSegments(facts, events, profile));
  }

  /** Where the reported timeline ends: the very end is reported unrounded only by a post-match segment. */
  function ReportedEnd(facts: Facts, events: seq<Event>, profile: Profile): real {
    if profile.postMatch != 0.0 then Duration(facts, events, profile) else Nearest(Duration(facts, events, profile))
  }

  /** The story's segments, as reported, meet from 0 to the end exactly when the opening is a whole number of ticks. */
  lemma {:induction false} ReportedSegmentsMeetExactly(facts: Facts, events: seq<Event>, profile: Profile)
    requires PeriodsInOrder(facts)
    ensures Chains(ReportedAll(Timeline(facts, events, profile)), 0.0, ReportedEnd(facts, events, profile))
       <==> Nearest(profile.preMatch) == profile.preMatch
  {
    var rest, duration := AfterOpening(facts, events, profile), Duration(facts, events, profile);
    TimelineIsConserved(facts, events, profile);
    AfterOpeningKinds(facts, events, profile);
    if profile.preMatch != 0.0 {
      ReportedTimelineMeets(Segment(PreMatch, 0.0, profile.preMatch), rest, duration);
    } else {
      assert [] + rest == rest;
      RoundingKeepsChains(rest, 0.0, duration);
      assert 0.0 * TICKS_PER_SECOND == 0.0 && Nearest(0.0) == 0.0;
    }
  }

  // ---- segments and rows ----

  /** The segments that come from rows of the minute table. */
  function FromRows(segments: seq<Segment>): seq<Segment> {
    if segments == [] then []
    else if IsRow(segments[0]) then [segments[0]] + FromRows(segments[1..])
    else FromRows(segments[1..])
  }

  lemma {:induction false} FromRowsJoins(a: seq<Segment>, b: seq<Segment>)
    ensures FromRows(a + b) == FromRows(a) + FromRows(b)
  {
    if a == [] {
      assert a + b == b;
    } else {
      FromRowsJoins(a[1..], b);
      assert (a + b)[0] == a[0] && (a + b)[1..] == a[1..] + b;
    }
  }

  predicate IsRow(s: Segment) {
    s.kind == FootballMinute || s.kind == Shootout
  }

  lemma {:induction false} AllFromRows(segments: seq<Segment>)
    ensures (forall k :: 0 <= k < |segments| ==> IsRow(segments[k])) ==> FromRows(segments) == segments
    ensures (forall k :: 0 <= k < |segments| ==> !IsRow(segments[k])) ==> FromRows(segments) == []
  {
    if segments != [] {
      AllFromRows(segments[1..]);
      assert segments == [segments[0]] + segments[1..];
      assert forall k :: 0 <= k < |segments[1..]| ==> segments[1..][k] == segments[k + 1];
    }
  }

  lemma {:induction false} ReportedFromRows(segments: seq<Segment>)
    ensures FromRows(ReportedAll(segments)) == ReportedAll(FromRows(segments))
  {
    if segments != [] {
      ReportedFromRows(segments[1..]);
      var all := ReportedAll(segments);
      assert all[0] == Reported(segments[0]) && all[1..] == ReportedAll(segments[1..]);
      if IsRow(segments[0]) {
        var kept := [segments[0]] + FromRows(segments[1..]);
        assert kept[1..] == FromRows(segments[1..]);
      }
    }
  }

  lemma {:induction false} ReportedAt(segments: seq<Segment>, k: nat)
    requires k < |segments|
    ensures |ReportedAll(segments)| == |segments| && ReportedAll(segments)[k] == Reported(segments[k])
  {
    if segments != [] {
      if k > 0 { ReportedAt(segments[1..], k - 1); } else if |segments| > 1 { ReportedAt(segments[1..], 0); }
    }
  }

  ghost predicate DrawsRow(s: Segment, row: Band) {
    IsRow(s) && Ticks(s.start) == row.videoStart && Ticks(s.end) == row.videoEnd
  }

  ghost predicate Draws(segments: seq<Segment>, rows: seq<Band>) {
    |segments| == |rows| && forall k :: 0 <= k < |rows| ==> DrawsRow(segments[k], rows[k])
  }

  lemma {:induction false} BandsDrawRows(spec: PeriodSpec, cursor: real, step: real)
    requires spec.Valid()
    ensures Draws(BandSegments(spec, cursor, step), SpecBands(spec, cursor, step))
    ensures FromRows(BandSegments(spec, cursor, step)) == BandSegments(spec, cursor, step)
  {
    AllFromRows(BandSegments(spec, cursor, step));
  }

  /** The football segments are drawn where the rows say, period by period. */
  lemma {:induction false} PeriodSegmentsDrawRows(specs: seq<PeriodSpec>, cursor: real, step: real, halftime: real)
    requires forall k :: 0 <= k < |specs| ==> specs[k].Valid()
    ensures Draws(FromRows(PeriodSegments(specs, cursor, step, halftime)), RegularBands(specs, cursor, step, halftime))
  {
    if specs != [] {
      var next, bandsEnd := NextCursor(specs[0], cursor, step, halftime), Advance(cursor, step, specs[0].Count());
      var bands, rest := BandSegments(specs[0], cursor, step), PeriodSegments(specs[1..], next, step, halftime);
      var insert :=
        if specs[0].period == FirstHalf && halftime != 0.0
        then [Segment(Halftime, bandsEnd, bandsEnd + halftime)] else [];
      PeriodSegmentsDrawRows(specs[1..], next, step, halftime);
      BandsDrawRows(specs[0], cursor, step);
      KeepsOnlyRows(bands, insert, rest);
    }
  }

  lemma {:induction false} KeepsOnlyRows(rows: seq<Segment>, other: seq<Segment>, rest: seq<Segment>)
    requires FromRows(rows) == rows && forall k :: 0 <= k < |other| ==> !IsRow(other[k])
    ensures FromRows(rows + other + rest) == rows + FromRows(rest)
  {
    AllFromRows(other);
    FromRowsJoins(rows, other);
    FromRowsJoins(rows + other, rest);
  }

  // ---- rounding and length of a video ----

  /** Rounding goes to a nearest integer, and from the middle to the even one. */
  lemma {:induction false} HalfEvenIsNearest(x: real)
    ensures -0.5 <= HalfEven(x) as real - x <= 0.5
    ensures HalfEven(x) as real - x == 0.5 || HalfEven(x) as real - x == -0.5 ==> HalfEven(x) % 2 == 0
  {
  }

  /** A tick is a billionth of a second. */
  lemma {:induction false} TicksAreNanoseconds(seconds: real)
    ensures -0.5 <= Ticks(seconds) as real - seconds * 1_000_000_000.0 <= 0.5
  {
    HalfEvenIsNearest(seconds * TICKS_PER_SECOND);
  }

  function Smaller(a: real, b: real): real {
    if a <= b then a else b
  }

  /** A video lasts as the profile says, plus 15 seconds for extra time and the shootout's, but at most 20 more. */
  lemma {:induction false} DurationExactly(facts: Facts, events: seq<Event>, profile: Profile)
    requires PeriodsInOrder(facts)
    ensures Duration(facts, events, profile) - profile.regulation
         == if HasExtraTime(facts) && (exists i :: 0 <= i < |events| && events[i].period == Penalties)
              then Smaller(20.0, 15.0 + profile.penalty)
            else if HasExtraTime(facts) then 15.0
            else if exists i :: 0 <= i < |events| && events[i].period == Penalties then Smaller(20.0, profile.penalty)
            else 0.0
  {
    if exists i :: 0 <= i < |events| && events[i].period == Penalties {
      var i :| 0 <= i < |events| && events[i].period == Penalties;
      assert events[i] in events;
    }
    if HasPenalties(events) {
      var e :| e in events && e.period == Penalties;
      var i :| 0 <= i < |events| && events[i] == e;
    }
  }

  /** The band the builder stops at is the first without source time, in the first period that has such a band. */
  ghost predicate StopsAt(specs: seq<PeriodSpec>, j: nat, k: nat)
    requires AllValid(specs)
  {
    && j < |specs| && k < specs[j].Count() && !specs[j].BandFits(k)
    && (forall i :: 0 <= i < k ==> specs[j].BandFits(i))
    && (forall i, m :: 0 <= i < j && 0 <= m < specs[i].Count() ==> specs[i].BandFits(m))
  }

  lemma {:induction false} FirstMisfitExactly(specs: seq<PeriodSpec>)
    requires AllValid(specs)
    ensures FirstMisfit(specs).Some? ==>
              exists j: nat, k: nat :: StopsAt(specs, j, k)
                  && FirstMisfit(specs).value == NoSourceDuration(specs[j].period, k)
  {
    if FirstMisfit(specs).Some? {
      if Misfit(specs[0], 0).Some? {
        assert StopsAt(specs, 0, Misfit(specs[0], 0).value);
      } else {
        FirstMisfitExactly(specs[1..]);
        var j: nat, k: nat :| StopsAt(specs[1..], j, k)
            && FirstMisfit(specs[1..]).value == NoSourceDuration(specs[1..][j].period, k);
        assert forall i :: 0 < i <= j ==> specs[i] == specs[1..][i - 1];
        assert StopsAt(specs, j + 1, k);
      }
    }
  }
}
