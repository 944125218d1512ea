/**
 Where every minute of a match appears on the video, computed from the facts, the events and the profile
 alone. The builder's rows are shown to sit exactly there, so that conditions on a built story can be
 checked before anything is built.
 */
module ScreenLayout {
  import opened Wrappers
  import opened Counting
  import opened MatchFacts
  import opened MinuteBands
  import opened VideoTimeline
  import opened ScoreReplay
  import opened Reactions
  import opened PortraitStory
  import Sorting

  /** The place of the event's minute in the match, counted from 0; the shootout comes after every minute. */
  function Slot(specs: seq<PeriodSpec>, e: Event): Option<nat> {
    if specs == [] then if e.period == Penalties then Some(0) else None
    else if !specs[0].Valid() then None
    else if specs[0].period == e.period && HasLabel(specs[0], e.minute, e.stoppage) then
      Some(LabelOffset(specs[0], e.minute, e.stoppage))
    else
      match Slot(specs[1..], e)
      case None => None
      case Some(k) => Some(specs[0].Count() + k)
  }

  /** The arithmetic of a video: minutes of the first half and in all, and where the football ends. */
  datatype Screen = Screen(
    specs: seq<PeriodSpec>, first: nat, minutes: nat, preMatch: real, step: real, halftime: real, end: real)
  {
    /** The exact second at which a slot begins. */
    function Time(slot: nat): real {
      Advance(preMatch, step, slot) + if slot >= first then halftime else 0.0
    }

    function Start(slot: nat): int {
      Ticks(Time(slot))
    }

    function End(slot: nat): int {
      if slot < minutes then Ticks(Time(slot) + step) else Ticks(end)
    }

    function SlotOf(e: Event): nat {
      Slot(specs, e).GetOr(0)
    }

    /** The first event is displayed before the second: by the bounds of their minutes, then by event order. */
    predicate Shows(a: Event, b: Event) {
      var i, j := SlotOf(a), SlotOf(b);
      Start(i) < Start(j)
      || (Start(i) == Start(j) && (End(i) < End(j) || (End(i) == End(j) && a.order <= b.order)))
    }

    /** The first event belongs before the second in the match: by slot, then by event order. */
    predicate Precedes(a: Event, b: Event) {
      SlotOf(a) < SlotOf(b) || (SlotOf(a) == SlotOf(b) && a.order <= b.order)
    }

    /** Every minute is on screen for at least one tick. */
    predicate MinutesAreVisible() {
      forall slot :: 0 <= slot < minutes ==> Start(slot) < End(slot)
    }

    /** The second half comes on screen after the last minute of the first half has. */
    predicate SecondHalfFollows() {
      0 < first && Start(first - 1) < Start(first)
    }

    /** The first half's last minute has left the screen by then, too. */
    predicate HalvesAreApart() {
      0 < first && End(first - 1) <= Start(first)
    }
  }

  function ScreenOf(facts: Facts, events: seq<Event>, profile: Profile): Screen
    requires ValidateFacts(facts, events).Success?
  {
    AcceptedFacts(facts, events);
    var specs := MinuteSpecs(facts, events);
    Screen(specs, specs[0].Count(), Weights(specs), profile.preMatch, Step(facts, events, profile), profile.halftime,
           Duration(facts, events, profile) - profile.postMatch)
  }

  function ShownOrder(screen: Screen): (Event, Event) -> bool {
    (a: Event, b: Event) => screen.Shows(a, b)
  }

  function MatchOrder(screen: Screen): (Event, Event) -> bool {
    (a: Event, b: Event) => screen.Precedes(a, b)
  }

  // ---- positions ----

  lemma {:induction false} TimeIsLinear(screen: Screen, slot: nat)
    ensures screen.Time(slot)
        == screen.preMatch + slot as real * screen.step + if slot >= screen.first then screen.halftime else 0.0
  {
    AdvanceIsScaled(screen.preMatch, screen.step, slot);
  }

  lemma {:induction false} AdvanceAdds(cursor: real, shift: real, step: real, n: nat, k: nat)
    ensures Advance(Advance(cursor, step, n) + shift, step, k) == Advance(cursor, step, n + k) + shift
  {
    if k > 0 { AdvanceAdds(cursor, shift, step, n, k - 1); }
  }

  lemma {:induction false} RegularBandsCount(specs: seq<PeriodSpec>, cursor: real, step: real, halftime: real)
    requires forall k :: 0 <= k < |specs| ==> specs[k].Valid()
    ensures |RegularBands(specs, cursor, step, halftime)| == Weights(specs)
  {
    if specs != [] { RegularBandsCount(specs[1..], NextCursor(specs[0], cursor, step, halftime), step, halftime); }
  }

  ghost predicate OnTime(row: Band, time: real, step: real) {
    row.videoStart == Ticks(time) && row.videoEnd == Ticks(time + step)
  }

  /** Without the first half, rows follow each other one step apart. */
  lemma {:induction false} LaterRowsAreEvenlySpaced(specs: seq<PeriodSpec>, cursor: real, step: real, halftime: real,
                                                    i: nat)
    requires forall k :: 0 <= k < |specs| ==> specs[k].Valid() && specs[k].period != FirstHalf
    requires i < |RegularBands(specs, cursor, step, halftime)|
    ensures OnTime(RegularBands(specs, cursor, step, halftime)[i], Advance(cursor, step, i), step)
  {
    var n, next := specs[0].Count(), NextCursor(specs[0], cursor, step, halftime);
    if i < n {
      assert RegularBands(specs, cursor, step, halftime)[i] == SpecBand(specs[0], cursor, step, i);
    } else {
      LaterRowsAreEvenlySpaced(specs[1..], next, step, halftime, i - n);
      AdvanceAdds(cursor, 0.0, step, n, i - n);
    }
  }

  lemma {:induction false} ShiftedRows(rest: seq<PeriodSpec>, cursor: real, step: real, halftime: real, n: nat, k: nat)
    requires forall m :: 0 <= m < |rest| ==> rest[m].Valid() && rest[m].period != FirstHalf
    requires k < |RegularBands(rest, Advance(cursor, step, n) + halftime, step, halftime)|
    ensures OnTime(RegularBands(rest, Advance(cursor, step, n) + halftime, step, halftime)[k],
        Advance(cursor, step, n + k) + halftime, step)
  {
    LaterRowsAreEvenlySpaced(rest, Advance(cursor, step, n) + halftime, step, halftime, k);
    AdvanceAdds(cursor, halftime, step, n, k);
  }

  lemma {:induction false} OnTimeInTail(a: seq<Band>, b: seq<Band>, i: nat, time: real, step: real)
    requires |a| <= i < |a| + |b| && OnTime(b[i - |a|], time, step)
    ensures OnTime((a + b)[i], time, step)
  {
  }

  lemma {:induction false} RowsAfterFirstHalf(specs: seq<PeriodSpec>, later: seq<PeriodSpec>, cursor: real,
                                              step: real, halftime: real, i: nat)
    requires AllValid(specs) && AllValid(later) && specs != [] && later == specs[1..] && specs[0].period == FirstHalf
    requires forall k :: 0 <= k < |later| ==> later[k].period != FirstHalf
    requires specs[0].Count() <= i < |RegularBands(specs, cursor, step, halftime)|
    ensures OnTime(RegularBands(specs, cursor, step, halftime)[i], Advance(cursor, step, i) + halftime, step)
  {
    var n, own := specs[0].Count(), SpecBands(specs[0], cursor, step);
    var rest := RegularBands(later, Advance(cursor, step, n) + halftime, step, halftime);
    assert RegularBands(specs, cursor, step, halftime) == own + rest;
    ShiftedRows(later, cursor, step, halftime, n, i - n);
    OnTimeInTail(own, rest, i, Advance(cursor, step, i) + halftime, step);
  }

  // ---- slots ----

  lemma {:induction false} KeyIndexJoins(a: seq<Band>, b: seq<Band>, e: Event)
    ensures EventIndex(a + b, e) ==
      if EventIndex(b, e).Some? then Some(|a| + EventIndex(b, e).value) else EventIndex(a, e)
  {
    if b == [] {
      assert a + b == a;
    } else {
      var rows, last := a + b, |b| - 1;
      assert rows[|rows| - 1] == b[last] && rows[..|rows| - 1] == a + b[..last];
      KeyIndexJoins(a, b[..last], e);
    }
  }

  lemma {:induction false} KeyIndexInPeriod(spec: PeriodSpec, cursor: real, step: real, e: Event)
    requires spec.Valid()
    ensures EventIndex(SpecBands(spec, cursor, step), e) ==
      if spec.period == e.period && HasLabel(spec, e.minute, e.stoppage)
      then Some(LabelOffset(spec, e.minute, e.stoppage)) else None
  {
    var rows := SpecBands(spec, cursor, step);
    var index := EventIndex(rows, e);
    if spec.period == e.period && HasLabel(spec, e.minute, e.stoppage) {
      var k := LabelOffset(spec, e.minute, e.stoppage);
      LabelIsUnique(spec, e.minute, e.stoppage, k);
      assert rows[k] == SpecBand(spec, cursor, step, k);
      KeyIndexFindsKeys(rows, e.period, e.minute, e.stoppage, k);
    }
    if index.Some? {
      assert rows[index.value] == SpecBand(spec, cursor, step, index.value);
      LabelIsUnique(spec, e.minute, e.stoppage, index.value);
    }
  }

  lemma {:induction false} AbsentPeriodHasNoSlot(specs: seq<PeriodSpec>, e: Event)
    requires e.period != Penalties && forall k :: 0 <= k < |specs| ==> specs[k].period != e.period
    ensures Slot(specs, e).None?
  {
    if specs != [] { AbsentPeriodHasNoSlot(specs[1..], e); }
  }

  /** The dictionary of rows finds an event at its slot, or not at all. */
  lemma {:induction false} SlotIsRowIndex(specs: seq<PeriodSpec>, cursor: real, step: real, halftime: real, e: Event)
    requires ValidSpecs(specs) && e.period != Penalties
    ensures EventIndex(RegularBands(specs, cursor, step, halftime), e) == Slot(specs, e)
  {
    if specs != [] {
      assert ValidSpec(specs[0]);
      var next := NextCursor(specs[0], cursor, step, halftime);
      SlotIsRowIndex(specs[1..], next, step, halftime, e);
      KeyIndexJoins(SpecBands(specs[0], cursor, step), RegularBands(specs[1..], next, step, halftime), e);
      KeyIndexInPeriod(specs[0], cursor, step, e);
      if specs[0].period == e.period { AbsentPeriodHasNoSlot(specs[1..], e); }
    }
  }

  lemma {:induction false} ShootoutSlotIsLast(specs: seq<PeriodSpec>, e: Event)
    requires ValidSpecs(specs) && e.period == Penalties
    ensures Slot(specs, e) == Some(Weights(specs))
  {
    if specs != [] {
      assert ValidSpec(specs[0]);
      ShootoutSlotIsLast(specs[1..], e);
    }
  }

  // ---- how wide a minute must be ----

  /** Consecutive minutes that are all visible advance at least one tick each. */
  lemma {:induction false} VisibleMinutesAddUp(cursor: real, step: real, n: nat)
    requires forall k :: 0 <= k < n ==> Ticks(Advance(cursor, step, k)) < Ticks(Advance(cursor, step, k + 1))
    ensures Ticks(Advance(cursor, step, n)) >= Ticks(cursor) + n
  {
    if n > 0 {
      assert Ticks(Advance(cursor, step, n - 1)) < Ticks(Advance(cursor, step, n - 1 + 1));
      VisibleMinutesAddUp(cursor, step, n - 1);
    }
  }

  /** The first half's n visible minutes need n - 1 ticks together: narrower profiles always fail. */
  lemma {:induction false} VisibilityNeedsWidth(screen: Screen)
    requires screen.MinutesAreVisible() && 0 < screen.first <= screen.minutes
    ensures (Advance(screen.preMatch, screen.step, screen.first) - screen.preMatch) * TICKS_PER_SECOND
        >= (screen.first - 1) as real
  {
    FirstHalfIsVisible(screen);
  }

  lemma {:induction false} FirstHalfIsVisible(screen: Screen)
    requires screen.MinutesAreVisible() && screen.first <= screen.minutes
    ensures Ticks(Advance(screen.preMatch, screen.step, screen.first)) >= Ticks(screen.preMatch) + screen.first
  {
    forall k | 0 <= k < screen.first
      ensures Ticks(Advance(screen.preMatch, screen.step, k)) < Ticks(Advance(screen.preMatch, screen.step, k + 1))
    {
      assert screen.Start(k) < screen.End(k);
    }
    VisibleMinutesAddUp(screen.preMatch, screen.step, screen.first);
  }

  /** More than one tick is always wide enough. */
  lemma {:induction false} WideMinutesAreVisible(screen: Screen)
    requires screen.step * TICKS_PER_SECOND > 1.0
    ensures screen.MinutesAreVisible()
  {
    forall slot | 0 <= slot < screen.minutes ensures screen.Start(slot) < screen.End(slot) {
      RoundedLength(screen.Time(slot), screen.step);
    }
  }

  // ---- the rows a build makes ----

  function Regular(facts: Facts, events: seq<Event>, profile: Profile): seq<Band>
    requires ValidateFacts(facts, events).Success?
  {
    AcceptedFacts(facts, events);
    RegularBands(MinuteSpecs(facts, events), profile.preMatch, Step(facts, events, profile), profile.halftime)
  }

  function Rows(facts: Facts, events: seq<Event>, profile: Profile): seq<Band>
    requires ValidateFacts(facts, events).Success?
  {
    AcceptedFacts(facts, events);
    WithShootout(facts, events, profile, Regular(facts, events, profile),
                 CursorAfter(MinuteSpecs(facts, events), profile.preMatch, Step(facts, events, profile),
                     profile.halftime))
  }

  lemma {:induction false} FootballEndsOnTime(specs: seq<PeriodSpec>, cursor: real, step: real, halftime: real)
    requires ValidSpecs(specs) && specs != [] && specs[0].period == FirstHalf
    ensures CursorAfter(specs, cursor, step, halftime) == Advance(cursor, step, Weights(specs)) + halftime
  {
    CursorCountsEveryBand(specs, cursor, step, halftime);
    LaterPeriodsHaveNoInsert(specs[1..], halftime);
    AdvanceIsScaled(cursor, step, Weights(specs));
  }

  lemma {:induction false} RegularIsCounted(facts: Facts, events: seq<Event>, profile: Profile)
    requires ValidateFacts(facts, events).Success?
    ensures |Regular(facts, events, profile)| == ScreenOf(facts, events, profile).minutes
  {
    AcceptedFacts(facts, events);
    RegularBandsCount(MinuteSpecs(facts, events), profile.preMatch, Step(facts, events, profile), profile.halftime);
  }

  lemma {:induction false} MinutesAreOnTime(specs: seq<PeriodSpec>, later: seq<PeriodSpec>, cursor: real, step: real,
                                            halftime: real, i: nat)
    requires AllValid(specs) && AllValid(later) && specs != [] && later == specs[1..] && specs[0].period == FirstHalf
    requires forall k :: 0 <= k < |later| ==> later[k].period != FirstHalf
    requires i < |RegularBands(specs, cursor, step, halftime)|
    ensures OnTime(RegularBands(specs, cursor, step, halftime)[i],
                   Advance(cursor, step, i) + (if i >= specs[0].Count() then halftime else 0.0), step)
  {
    if i < specs[0].Count() {
      assert RegularBands(specs, cursor, step, halftime)[i] == SpecBand(specs[0], cursor, step, i);
    } else {
      RowsAfterFirstHalf(specs, later, cursor, step, halftime, i);
    }
  }

  lemma {:induction false} OnlyFirstIsFirst(specs: seq<PeriodSpec>, later: seq<PeriodSpec>)
    requires ValidSpecs(specs) && specs != [] && later == specs[1..] && specs[0].period == FirstHalf
    ensures AllValid(specs) && AllValid(later) && forall k :: 0 <= k < |later| ==> later[k].period != FirstHalf
  {
    assert forall k :: 0 <= k < |later| ==> later[k] == specs[k + 1];
  }

  lemma {:induction false} MinutesAreOnScreen(facts: Facts, events: seq<Event>, profile: Profile, i: nat)
    requires ValidateFacts(facts, events).Success? && i < |Regular(facts, events, profile)|
    ensures var row, screen := Regular(facts, events, profile)[i], ScreenOf(facts, events, profile);
      i < screen.minutes && OnTime(row, screen.Time(i), screen.step)
  {
    AcceptedFacts(facts, events);
    RegularIsCounted(facts, events, profile);
    var specs := MinuteSpecs(facts, events);
    OnlyFirstIsFirst(specs, specs[1..]);
    MinutesAreOnTime(specs, specs[1..], profile.preMatch, Step(facts, events, profile), profile.halftime, i);
  }

  lemma {:induction false} FootballEndsInSlot(facts: Facts, events: seq<Event>, profile: Profile)
    requires ValidateFacts(facts, events).Success? && PeriodsInOrder(facts) && ValidSpecs(MinuteSpecs(facts, events))
    ensures var screen := ScreenOf(facts, events, profile);
      CursorAfter(MinuteSpecs(facts, events), profile.preMatch, Step(facts, events, profile), profile.halftime)
        == screen.Time(screen.minutes)
  {
    FootballEndsOnTime(MinuteSpecs(facts, events), profile.preMatch, Step(facts, events, profile), profile.halftime);
  }

  lemma {:induction false} ShootoutIsOnScreen(facts: Facts, events: seq<Event>, profile: Profile)
    requires ValidateFacts(facts, events).Success? && HasPenalties(events)
    ensures var rows, screen := Rows(facts, events, profile), ScreenOf(facts, events, profile);
      |rows| == screen.minutes + 1
      && rows[screen.minutes].videoStart == screen.Start(screen.minutes)
          && rows[screen.minutes].videoEnd == screen.End(screen.minutes)
  {
    AcceptedFacts(facts, events);
    RegularIsCounted(facts, events, profile);
    FootballEndsInSlot(facts, events, profile);
  }

  lemma {:induction false} RowsContinueRegular(facts: Facts, events: seq<Event>, profile: Profile)
    requires ValidateFacts(facts, events).Success?
    ensures var rows, regular := Rows(facts, events, profile), Regular(facts, events, profile);
      |regular| == ScreenOf(facts, events, profile).minutes && regular <= rows
      && |rows| == |regular| + (if HasPenalties(events) then 1 else 0)
  {
    RegularIsCounted(facts, events, profile);
  }

  lemma {:induction false} OnTimeIsOnScreen(rows: seq<Band>, regular: seq<Band>, screen: Screen, i: nat)
    requires regular <= rows && i < |regular| && i < screen.minutes && OnTime(regular[i], screen.Time(i), screen.step)
    ensures rows[i].videoStart == screen.Start(i) && rows[i].videoEnd == screen.End(i)
  {
  }

  /** Row i of a build, the shootout's included, is on screen exactly in slot i. */
  lemma {:induction false} RowsAreOnScreen(facts: Facts, events: seq<Event>, profile: Profile, i: nat)
    requires ValidateFacts(facts, events).Success? && i < |Rows(facts, events, profile)|
    ensures var row, screen := Rows(facts, events, profile)[i], ScreenOf(facts, events, profile);
      row.videoStart == screen.Start(i) && row.videoEnd == screen.End(i)
  {
    RowsContinueRegular(facts, events, profile);
    if i < |Regular(facts, events, profile)| {
      MinutesAreOnScreen(facts, events, profile, i);
      OnTimeIsOnScreen(Rows(facts, events, profile), Regular(facts, events, profile),
          ScreenOf(facts, events, profile), i);
    } else {
      ShootoutIsOnScreen(facts, events, profile);
    }
  }

  ghost predicate Proper(screen: Screen) {
    0 < screen.first < screen.minutes
  }

  lemma {:induction false} ScreensAreProper(facts: Facts, events: seq<Event>, profile: Profile)
    requires ValidateFacts(facts, events).Success?
    ensures Proper(ScreenOf(facts, events, profile))
  {
    AcceptedFacts(facts, events);
    var specs := MinuteSpecs(facts, events);
    assert ValidSpec(specs[0]) && ValidSpec(specs[1]) && specs[1..][0] == specs[1];
    assert Weights(specs) == specs[0].Count() + Weights(specs[1..]);
  }

  /** Every row is on screen in its slot; the shootout's, if there is one, comes after the minutes. */
  ghost predicate DrawnOn(rows: seq<Band>, screen: Screen) {
    && Proper(screen) && screen.minutes <= |rows| <= screen.minutes + 1
    && (forall i :: 0 <= i < |rows| ==> rows[i].videoStart == screen.Start(i) && rows[i].videoEnd == screen.End(i))
  }

  lemma {:induction false} RowsAreDrawn(facts: Facts, events: seq<Event>, profile: Profile)
    requires ValidateFacts(facts, events).Success?
    ensures DrawnOn(Rows(facts, events, profile), ScreenOf(facts, events, profile))
  {
    var rows, screen := Rows(facts, events, profile), ScreenOf(facts, events, profile);
    ScreensAreProper(facts, events, profile);
    RowsContinueRegular(facts, events, profile);
    forall i | 0 <= i < |rows| ensures rows[i].videoStart == screen.Start(i) && rows[i].videoEnd == screen.End(i) {
      RowsAreOnScreen(facts, events, profile, i);
    }
  }

  /** The builder's own test of its football rows, on the inputs. */
  lemma {:induction false} VisibleExactly(facts: Facts, events: seq<Event>, profile: Profile)
    requires ValidateFacts(facts, events).Success?
    ensures PositiveVideo(Regular(facts, events, profile)) <==> ScreenOf(facts, events, profile).MinutesAreVisible()
  {
    var regular, screen := Regular(facts, events, profile), ScreenOf(facts, events, profile);
    RegularIsCounted(facts, events, profile);
    forall i | 0 <= i < |regular|
      ensures regular[i].videoStart == screen.Start(i) && regular[i].videoEnd == screen.End(i)
    {
      MinutesAreOnScreen(facts, events, profile, i);
    }
    if screen.MinutesAreVisible() {
      forall i | 0 <= i < |regular| ensures regular[i].videoStart < regular[i].videoEnd {
        assert screen.Start(i) < screen.End(i);
      }
    }
    if PositiveVideo(regular) {
      forall slot | 0 <= slot < screen.minutes ensures screen.Start(slot) < screen.End(slot) {
        assert regular[slot].videoStart < regular[slot].videoEnd;
      }
    }
  }

  lemma {:induction false} ShootoutPlacement(facts: Facts, events: seq<Event>, profile: Profile, e: Event)
    requires ValidateFacts(facts, events).Success? && e in events && e.period == Penalties
    ensures Placement(Rows(facts, events, profile), e) == Slot(MinuteSpecs(facts, events), e)
  {
    AcceptedFacts(facts, events);
    RegularIsCounted(facts, events, profile);
    ShootoutSlotIsLast(MinuteSpecs(facts, events), e);
  }

  lemma {:induction false} FootballPlacement(facts: Facts, events: seq<Event>, profile: Profile, e: Event)
    requires ValidateFacts(facts, events).Success? && e.period != Penalties
    ensures EventIndex(Rows(facts, events, profile), e) == Slot(MinuteSpecs(facts, events), e)
  {
    AcceptedFacts(facts, events);
    var rows, regular := Rows(facts, events, profile), Regular(facts, events, profile);
    SlotIsRowIndex(MinuteSpecs(facts, events), profile.preMatch, Step(facts, events, profile), profile.halftime, e);
  }

  /** The row an event is shown in is its slot. */
  lemma {:induction false} PlacementIsSlot(facts: Facts, events: seq<Event>, profile: Profile, e: Event)
    requires ValidateFacts(facts, events).Success? && e in events
    ensures Placement(Rows(facts, events, profile), e) == Slot(MinuteSpecs(facts, events), e)
  {
    if e.period == Penalties {
      ShootoutPlacement(facts, events, profile, e);
    } else {
      FootballPlacement(facts, events, profile, e);
    }
  }

  // ---- segments ----

  function Seconds(ticks: int): real {
    ticks as real / TICKS_PER_SECOND
  }

  lemma {:induction false} RowsAmongSegments(opening: seq<Segment>, football: seq<Segment>, shootout: seq<Segment>,
                                             ending: seq<Segment>)
    requires forall k :: 0 <= k < |opening| ==> !IsRow(opening[k])
    requires forall k :: 0 <= k < |ending| ==> !IsRow(ending[k])
    requires forall k :: 0 <= k < |shootout| ==> IsRow(shootout[k])
    ensures FromRows(opening + (football + shootout + ending)) == FromRows(football) + shootout
  {
    AllFromRows(opening);
    AllFromRows(ending);
    AllFromRows(shootout);
    FromRowsJoins(opening, football + shootout + ending);
    FromRowsJoins(football + shootout, ending);
    FromRowsJoins(football, shootout);
  }

  lemma {:induction false} FootballRowsAreDrawn(facts: Facts, events: seq<Event>, profile: Profile)
    requires ValidateFacts(facts, events).Success? && PeriodsInOrder(facts)
    ensures Draws(FromRows(FootballSegments(facts, events, profile)), Regular(facts, events, profile))
  {
    AcceptedFacts(facts, events);
    PeriodSegmentsDrawRows(MinuteSpecs(facts, events), profile.preMatch, Step(facts, events, profile),
        profile.halftime);
  }

  function ShootoutRows(facts: Facts, events: seq<Event>, profile: Profile): seq<Band>
    requires PeriodsInOrder(facts)
  {
    if HasPenalties(events) then [ShootoutBand(facts, events, profile, FootballEnd(facts, events, profile))] else []
  }

  lemma {:induction false} ShootoutIsDrawn(facts: Facts, events: seq<Event>, profile: Profile)
    requires PeriodsInOrder(facts)
    ensures Draws(ShootoutSegments(facts, events, profile), ShootoutRows(facts, events, profile))
  {
  }

  lemma {:induction false} FootballIsDrawn(facts: Facts, events: seq<Event>, profile: Profile)
    requires ValidateFacts(facts, events).Success? && PeriodsInOrder(facts)
    ensures Draws(FromRows(Timeline(facts, events, profile)), Rows(facts, events, profile))
  {
    var football, shootout := FootballSegments(facts, events, profile), ShootoutSegments(facts, events, profile);
    RowsAmongSegments(OpeningSegments(profile), football, shootout, ClosingSegments(facts, events, profile));
    FootballRowsAreDrawn(facts, events, profile);
    ShootoutIsDrawn(facts, events, profile);
  }

  /** The reported football and shootout segments are the built rows, bound for bound. */
  lemma {:induction false} ReportedSegmentsAreRows(facts: Facts, events: seq<Event>, profile: Profile, k: nat)
    requires ValidateFacts(facts, events).Success? && PeriodsInOrder(facts) && k < |Rows(facts, events, profile)|
    ensures var segments, row := FromRows(ReportedAll(Timeline(facts, events, profile))),
        Rows(facts, events, profile)[k];
      |segments| == |Rows(facts, events, profile)|
      && segments[k].start == Seconds(row.videoStart) && segments[k].end == Seconds(row.videoEnd)
  {
    FootballIsDrawn(facts, events, profile);
    ReportedFromRows(Timeline(facts, events, profile));
    ReportedAt(FromRows(Timeline(facts, events, profile)), k);
  }

  // ---- display order ----

  lemma {:induction false} DisplayedAsShown(facts: Facts, events: seq<Event>, profile: Profile, a: Annotation,
                                            b: Annotation)
    requires ValidateFacts(facts, events).Success?
    requires PlacedFrom(Rows(facts, events, profile), events, a) && PlacedFrom(Rows(facts, events, profile), events, b)
    ensures VideoLeq(a, b) <==> ScreenOf(facts, events, profile).Shows(a.event, b.event)
  {
    var rows := Rows(facts, events, profile);
    PlacementIsSlot(facts, events, profile, a.event);
    PlacementIsSlot(facts, events, profile, b.event);
    RowsAreOnScreen(facts, events, profile, Placement(rows, a.event).value);
    RowsAreOnScreen(facts, events, profile, Placement(rows, b.event).value);
  }

  function ScoringOnly(events: seq<Event>): seq<Event> {
    if events == [] then []
    else if IsScoring(events[0]) then [events[0]] + ScoringOnly(events[1..])
    else ScoringOnly(events[1..])
  }

  lemma {:induction false} ScoringOnlyMembers(events: seq<Event>)
    ensures forall e :: e in ScoringOnly(events) <==> e in events && IsScoring(e)
    ensures NoRepeats(events) ==> NoRepeats(ScoringOnly(events))
  {
    if events != [] {
      assert events == [events[0]] + events[1..];
      ScoringOnlyMembers(events[1..]);
      if NoRepeats(events) {
        assert NoRepeats(events[1..]);
        assert events[0] !in events[1..] by {
          forall k | 0 <= k < |events[1..]| ensures events[1..][k] != events[0] { assert events[k + 1] != events[0]; }
        }
      }
    }
  }

  lemma {:induction false} ScoringEventsMembers(annotations: seq<Annotation>, n: nat)
    requires n <= |annotations|
    ensures forall e :: e in ScoringEvents(annotations, n) <==>
              IsScoring(e) && exists i :: 0 <= i < n && annotations[i].event == e
  {
    if n > 0 {
      ScoringEventsMembers(annotations, n - 1);
      var e := annotations[n - 1].event;
      forall x: Event | IsScoring(x) && x == e ensures exists i :: 0 <= i < n && annotations[i].event == x {
        assert annotations[n - 1].event == x;
      }
    }
  }

  /** Events of strictly ordered annotations are strictly ordered, those between them left out or not. */
  lemma {:induction false} ScoringEventsStayOrdered(annotations: seq<Annotation>, n: nat, leq: (Event, Event) -> bool)
    requires n <= |annotations|
    requires forall i, j :: 0 <= i < j < |annotations| ==>
      leq(annotations[i].event, annotations[j].event) && !leq(annotations[j].event, annotations[i].event)
    ensures Sorting.StrictlySorted(ScoringEvents(annotations, n), leq)
  {
    if n > 0 {
      ScoringEventsStayOrdered(annotations, n - 1, leq);
      ScoringEventsMembers(annotations, n - 1);
      var before := ScoringEvents(annotations, n - 1);
      forall k | 0 <= k < |before|
        ensures leq(before[k], annotations[n - 1].event) && !leq(annotations[n - 1].event, before[k])
      {
        assert before[k] in before;
        var i :| 0 <= i < n - 1 && annotations[i].event == before[k];
      }
    }
  }

  lemma {:induction false} SortedGoalsAreStrict(events: seq<Event>, leq: (Event, Event) -> bool)
    requires OrdersIncrease(events) && Sorting.Connected(leq) && Sorting.Transitive(leq)
    requires forall a, b :: leq(a, b) && leq(b, a) ==> a.order == b.order
    ensures Sorting.StrictlySorted(Sorting.Sort(ScoringOnly(events), leq), leq)
    ensures forall e :: e in Sorting.Sort(ScoringOnly(events), leq) <==> e in events && IsScoring(e)
  {
    var goals := ScoringOnly(events);
    forall i, j | 0 <= i < j < |events| ensures events[i] != events[j] { assert events[i].order < events[j].order; }
    ScoringOnlyMembers(events);
    Sorting.SortSorts(goals, leq);
    Sorting.SortKeepsDistinct(goals, leq);
    Sorting.SortKeepsMembers(goals, leq);
    var sorted := Sorting.Sort(goals, leq);
    forall i, j | 0 <= i < j < |sorted| ensures leq(sorted[i], sorted[j]) && !leq(sorted[j], sorted[i]) {
      assert sorted[i] in sorted && sorted[j] in sorted;
    }
  }

  /** The goals of the displayed annotations are the scoring events, sorted by where their minutes are on screen. */
  lemma {:induction false} GoalsAreShownInOrder(facts: Facts, events: seq<Event>, profile: Profile)
    requires ValidateFacts(facts, events).Success?
    requires PlaceAll(Rows(facts, events, profile), events, |events|).Success?
    ensures var shown := DisplayOrder(Rows(facts, events, profile), events);
      ScoringEvents(shown, |shown|) == Sorting.Sort(ScoringOnly(events), ShownOrder(ScreenOf(facts, events, profile)))
  {
    AcceptedFacts(facts, events);
    ShownIsStrict(facts, events, profile);
    ScreenOrderIsTotal(ScreenOf(facts, events, profile));
    GoalsFollowStrictOrder(Rows(facts, events, profile), events, ShownOrder(ScreenOf(facts, events, profile)));
  }

  lemma {:induction false} ScreenOrderIsTotal(screen: Screen)
    ensures Sorting.Connected(ShownOrder(screen)) && Sorting.Transitive(ShownOrder(screen))
    ensures forall a, b :: ShownOrder(screen)(a, b) && ShownOrder(screen)(b, a) ==> a.order == b.order
  {
  }

  /** Goals displayed in a strict order are the scoring events sorted by it. */
  lemma {:induction false} GoalsFollowStrictOrder(rows: seq<Band>, events: seq<Event>, leq: (Event, Event) -> bool)
    requires PlaceAll(rows, events, |events|).Success? && OrdersIncrease(events)
    requires Sorting.Connected(leq) && Sorting.Transitive(leq)
    requires forall a, b :: leq(a, b) && leq(b, a) ==> a.order == b.order
    requires var shown := DisplayOrder(rows, events);
      forall i, j :: 0 <= i < j < |shown| ==>
          leq(shown[i].event, shown[j].event) && !leq(shown[j].event, shown[i].event)
    ensures var shown := DisplayOrder(rows, events);
      ScoringEvents(shown, |shown|) == Sorting.Sort(ScoringOnly(events), leq)
  {
    var shown := DisplayOrder(rows, events);
    ScoringEventsStayOrdered(shown, |shown|, leq);
    SortedGoalsAreStrict(events, leq);
    ShownGoalsMembers(rows, events);
    Sorting.OrderedByMembers(ScoringEvents(shown, |shown|), Sorting.Sort(ScoringOnly(events), leq), leq);
  }

  lemma {:induction false} ShownGoalsMembers(rows: seq<Band>, events: seq<Event>)
    requires PlaceAll(rows, events, |events|).Success?
    ensures var shown := DisplayOrder(rows, events);
      forall e :: e in ScoringEvents(shown, |shown|) <==> e in events && IsScoring(e)
  {
    var shown := DisplayOrder(rows, events);
    DisplayedAnnotations(rows, events);
    ScoringEventsMembers(shown, |shown|);
    forall e: Event ensures e in ScoringEvents(shown, |shown|) <==> e in events && IsScoring(e) {
      if e in ScoringEvents(shown, |shown|) {
        var i :| 0 <= i < |shown| && shown[i].event == e;
        assert PlacedFrom(rows, events, shown[i]);
      }
    }
  }

  lemma {:induction false} ShownPairIsStrict(facts: Facts, events: seq<Event>, profile: Profile, a: Annotation,
                                             b: Annotation)
    requires ValidateFacts(facts, events).Success? && OrdersIncrease(events)
    requires PlacedFrom(Rows(facts, events, profile), events, a) && PlacedFrom(Rows(facts, events, profile), events, b)
    requires VideoLeq(a, b) && a.event.id != b.event.id
    ensures var leq := ShownOrder(ScreenOf(facts, events, profile)); leq(a.event, b.event) && !leq(b.event, a.event)
  {
    DisplayedAsShown(facts, events, profile, a, b);
  }

  /** Annotations are displayed in the strict order of their slots on screen. */
  lemma {:induction false} ShownIsStrict(facts: Facts, events: seq<Event>, profile: Profile)
    requires ValidateFacts(facts, events).Success?
    requires PlaceAll(Rows(facts, events, profile), events, |events|).Success?
    ensures var shown, leq := DisplayOrder(Rows(facts, events, profile), events),
        ShownOrder(ScreenOf(facts, events, profile));
      forall i, j :: 0 <= i < j < |shown| ==>
        leq(shown[i].event, shown[j].event) && !leq(shown[j].event, shown[i].event)
  {
    var rows := Rows(facts, events, profile);
    var shown, leq := DisplayOrder(rows, events), ShownOrder(ScreenOf(facts, events, profile));
    AcceptedFacts(facts, events);
    DisplayedAnnotations(rows, events);
    Sorting.SortSorts(PlaceAll(rows, events, |events|).value, VideoLeq);
    forall i, j | 0 <= i < j < |shown|
      ensures leq(shown[i].event, shown[j].event) && !leq(shown[j].event, shown[i].event)
    {
      ShownPairIsStrict(facts, events, profile, shown[i], shown[j]);
    }
  }
}
