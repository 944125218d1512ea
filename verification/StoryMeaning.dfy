/**
 What a built story says, in the match's own terms: when annotations run in match order, that scores count goals,
 and that each reaction quotes the nearest observations of its period in exact time.
 */
module StoryMeaning {
  import opened Wrappers
  import opened Timescale
  import opened MatchFacts
  import opened MinuteBands
  import opened VideoTimeline
  import opened ScoreReplay
  import opened Reactions
  import opened StoryValidator
  import opened PortraitStory
  import opened ScreenLayout
  import opened BuilderMeetsValidator
  import Sorting

  /** A built story is the candidate assembled from its rows, with nothing else in it. */
  lemma {:induction false} BuiltStoryIsCandidate(facts: Facts, events: seq<Event>, metrics: seq<Metric>,
                                                 profile: Profile)
    requires Build(facts, events, metrics, profile).Success?
    ensures Buildable(facts, events, profile)
    ensures PlaceAll(Rows(facts, events, profile), events, |events|).Success?
    ensures Replays(DisplayOrder(Rows(facts, events, profile), events))
    ensures Build(facts, events, metrics, profile).value == Candidate(facts, events, metrics, profile)
  {
    BuildSucceedsExactly(facts, events, metrics, profile);
    FitsMeansNoMisfit(facts, events);
  }

  // ---- match order ----

  /** Each row comes on screen before every later one. */
  ghost predicate RowsInTurn(rows: seq<Band>) {
    forall a, b :: 0 <= a < b < |rows| ==> rows[a].videoStart < rows[b].videoStart
  }

  lemma {:induction false} SlotsAreOneStepApart(screen: Screen, slot: nat)
    requires slot + 1 != screen.first && slot < screen.minutes
    ensures screen.Time(slot) + screen.step == screen.Time(slot + 1)
  {
  }

  lemma {:induction false} NextSlotIsLater(screen: Screen, slot: nat)
    requires screen.SecondHalfFollows() && slot < screen.minutes && screen.Start(slot) < screen.End(slot)
    ensures screen.Start(slot) < screen.Start(slot + 1)
  {
    if slot + 1 != screen.first { SlotsAreOneStepApart(screen, slot); }
  }

  lemma {:induction false} AscendsThroughout(f: nat -> int, a: nat, b: nat)
    requires a < b && forall k :: a <= k < b ==> f(k) < f(k + 1)
    ensures f(a) < f(b)
    decreases b
  {
    assert f(b - 1) < f(b - 1 + 1);
    if a < b - 1 { AscendsThroughout(f, a, b - 1); }
  }

  /** A visible video whose halves follow each other shows every slot after all earlier ones. */
  lemma {:induction false} LaterSlotsAreLater(screen: Screen, a: nat, b: nat)
    requires Proper(screen) && screen.MinutesAreVisible() && screen.SecondHalfFollows() && a < b <= screen.minutes
    ensures screen.Start(a) < screen.Start(b)
  {
    forall k | a <= k < b ensures screen.Start(k) < screen.Start(k + 1) {
      NextSlotIsLater(screen, k);
    }
    AscendsThroughout(screen.Start, a, b);
  }

  lemma {:induction false} RowsInTurnOn(rows: seq<Band>, screen: Screen)
    requires DrawnOn(rows, screen) && screen.MinutesAreVisible()
    ensures RowsInTurn(rows) <==> screen.SecondHalfFollows()
  {
    if screen.SecondHalfFollows() {
      forall a, b | 0 <= a < b < |rows| ensures rows[a].videoStart < rows[b].videoStart {
        LaterSlotsAreLater(screen, a, b);
      }
    }
    if RowsInTurn(rows) { assert rows[screen.first - 1].videoStart < rows[screen.first].videoStart; }
  }

  /** The rows of a build, the shootout's included, come on in turn exactly when the second half follows the first. */
  lemma {:induction false} RowsInTurnExactly(facts: Facts, events: seq<Event>, profile: Profile)
    requires ValidateFacts(facts, events).Success? && ScreenOf(facts, events, profile).MinutesAreVisible()
    ensures RowsInTurn(Rows(facts, events, profile)) <==> ScreenOf(facts, events, profile).SecondHalfFollows()
  {
    RowsAreDrawn(facts, events, profile);
    RowsInTurnOn(Rows(facts, events, profile), ScreenOf(facts, events, profile));
  }

  ghost predicate RowsAreApart(rows: seq<Band>) {
    forall a, b :: 0 <= a < b < |rows| ==> rows[a].videoEnd <= rows[b].videoStart
  }

  lemma {:induction false} NextSlotIsApart(screen: Screen, slot: nat)
    requires Proper(screen) && screen.HalvesAreApart() && slot < screen.minutes
    ensures screen.End(slot) <= screen.Start(slot + 1)
  {
    if slot + 1 != screen.first { SlotsAreOneStepApart(screen, slot); }
  }

  lemma {:induction false} SlotsAreApart(screen: Screen, a: nat, b: nat)
    requires Proper(screen) && screen.MinutesAreVisible() && screen.HalvesAreApart() && a < b <= screen.minutes
    ensures screen.End(a) <= screen.Start(b)
  {
    NextSlotIsApart(screen, a);
    if a + 1 < b { LaterSlotsAreLater(screen, a + 1, b); }
  }

  lemma {:induction false} RowsAreApartOn(rows: seq<Band>, screen: Screen)
    requires DrawnOn(rows, screen) && screen.MinutesAreVisible()
    ensures RowsAreApart(rows) <==> screen.HalvesAreApart()
  {
    if screen.HalvesAreApart() {
      forall a, b | 0 <= a < b < |rows| ensures rows[a].videoEnd <= rows[b].videoStart {
        SlotsAreApart(screen, a, b);
      }
    }
    if RowsAreApart(rows) { assert rows[screen.first - 1].videoEnd <= rows[screen.first].videoStart; }
  }

  /** On a visible video no row starts before an earlier one has ended, exactly when the halves do not overlap. */
  lemma {:induction false} RowsAreApartExactly(facts: Facts, events: seq<Event>, profile: Profile)
    requires ValidateFacts(facts, events).Success? && ScreenOf(facts, events, profile).MinutesAreVisible()
    ensures RowsAreApart(Rows(facts, events, profile)) <==> ScreenOf(facts, events, profile).HalvesAreApart()
  {
    RowsAreDrawn(facts, events, profile);
    RowsAreApartOn(Rows(facts, events, profile), ScreenOf(facts, events, profile));
  }

  /** The first annotation's row is earlier, or the rows are the same and its event order is smaller. */
  ghost predicate InMatchOrder(rows: seq<Band>, a: Annotation, b: Annotation) {
    Placement(rows, a.event).Some? && Placement(rows, b.event).Some?
    && var i, j := Placement(rows, a.event).value, Placement(rows, b.event).value;
       i < j || (i == j && a.event.order < b.event.order)
  }

  ghost predicate AllInMatchOrder(rows: seq<Band>, shown: seq<Annotation>) {
    forall i, j :: 0 <= i < j < |shown| ==> InMatchOrder(rows, shown[i], shown[j])
  }

  /** No event of a later slot is displayed before one of an earlier slot. */
  ghost predicate EventsInTurn(screen: Screen, events: seq<Event>) {
    forall i, j :: 0 <= i < |events| && 0 <= j < |events| ==> InTurn(screen, events[i], events[j])
  }

  predicate InTurn(screen: Screen, a: Event, b: Event) {
    screen.SlotOf(a) < screen.SlotOf(b) ==> screen.Shows(a, b)
  }

  lemma {:induction false} PlayedEventsHaveSlots(facts: Facts, events: seq<Event>, profile: Profile, e: Event)
    requires ValidateFacts(facts, events).Success? && AllEventsPlayed(facts, events) && e in events
    ensures var screen := ScreenOf(facts, events, profile);
      Placement(Rows(facts, events, profile), e) == Some(screen.SlotOf(e)) && screen.SlotOf(e) <= screen.minutes
  {
    AllPlacedExactly(facts, events, profile);
    PlaceAllPlaces(Rows(facts, events, profile), events, |events|);
    PlacementIsSlot(facts, events, profile, e);
    RegularIsCounted(facts, events, profile);
  }

  lemma {:induction false} FollowingHalvesKeepEventsInTurn(facts: Facts, events: seq<Event>, profile: Profile)
    requires ValidateFacts(facts, events).Success? && AllEventsPlayed(facts, events)
    requires ScreenOf(facts, events, profile).MinutesAreVisible()
        && ScreenOf(facts, events, profile).SecondHalfFollows()
    ensures EventsInTurn(ScreenOf(facts, events, profile), events)
  {
    var screen := ScreenOf(facts, events, profile);
    forall i, j | 0 <= i < |events| && 0 <= j < |events|
      ensures InTurn(screen, events[i], events[j])
    {
      PlayedEventsHaveSlots(facts, events, profile, events[j]);
      if screen.SlotOf(events[i]) < screen.SlotOf(events[j]) {
        LaterSlotsAreLater(screen, screen.SlotOf(events[i]), screen.SlotOf(events[j]));
      }
    }
  }

  /**
   Display order is match order exactly when the events are in turn, which a caller can compute, and which
   every visible video whose second half follows the first guarantees for all events.
   */
  lemma {:induction false} AnnotationsRunInMatchOrder(facts: Facts, events: seq<Event>, profile: Profile)
    requires ValidateFacts(facts, events).Success? && AllEventsPlayed(facts, events)
    ensures PlaceAll(Rows(facts, events, profile), events, |events|).Success?
    ensures AllInMatchOrder(Rows(facts, events, profile), DisplayOrder(Rows(facts, events, profile), events))
       <==> EventsInTurn(ScreenOf(facts, events, profile), events)
    ensures var screen := ScreenOf(facts, events, profile);
      screen.MinutesAreVisible() && screen.SecondHalfFollows() ==> EventsInTurn(screen, events)
  {
    AllPlacedExactly(facts, events, profile);
    var screen := ScreenOf(facts, events, profile);
    if EventsInTurn(screen, events) { EventsInTurnShowInOrder(facts, events, profile); }
    if AllInMatchOrder(Rows(facts, events, profile), DisplayOrder(Rows(facts, events, profile), events)) {
      OrderedShowMeansInTurn(facts, events, profile);
    }
    if screen.MinutesAreVisible() && screen.SecondHalfFollows() {
      FollowingHalvesKeepEventsInTurn(facts, events, profile);
    }
  }

  lemma {:induction false} EventsInTurnShowInOrder(facts: Facts, events: seq<Event>, profile: Profile)
    requires ValidateFacts(facts, events).Success? && AllEventsPlayed(facts, events)
    requires PlaceAll(Rows(facts, events, profile), events, |events|).Success?
    requires EventsInTurn(ScreenOf(facts, events, profile), events)
    ensures AllInMatchOrder(Rows(facts, events, profile), DisplayOrder(Rows(facts, events, profile), events))
  {
    var rows := Rows(facts, events, profile);
    var shown := DisplayOrder(rows, events);
    DisplayedAnnotations(rows, events);
    ShownIsStrict(facts, events, profile);
    forall i, j | 0 <= i < j < |shown| ensures InMatchOrder(rows, shown[i], shown[j]) {
      assert PlacedFrom(rows, events, shown[i]) && PlacedFrom(rows, events, shown[j]);
      PairInTurn(facts, events, profile, shown[i], shown[j]);
    }
  }

  lemma {:induction false} PairInTurn(facts: Facts, events: seq<Event>, profile: Profile, a: Annotation, b: Annotation)
    requires ValidateFacts(facts, events).Success? && AllEventsPlayed(facts, events) && a.event in events
        && b.event in events
    requires EventsInTurn(ScreenOf(facts, events, profile), events)
    requires ScreenOf(facts, events, profile).Shows(a.event, b.event)
        && !ScreenOf(facts, events, profile).Shows(b.event, a.event)
    ensures InMatchOrder(Rows(facts, events, profile), a, b)
  {
    PlayedEventsHaveSlots(facts, events, profile, a.event);
    PlayedEventsHaveSlots(facts, events, profile, b.event);
  }

  ghost predicate AreShown(shown: seq<Annotation>, events: seq<Event>) {
    forall e :: e in events ==> exists k :: 0 <= k < |shown| && shown[k].event == e
  }

  ghost predicate ShownBy(screen: Screen, shown: seq<Annotation>) {
    forall i, j :: 0 <= i < j < |shown| ==> screen.Shows(shown[i].event, shown[j].event)
  }

  /** Two displayed events whose annotations are in match order are displayed in that order. */
  lemma {:induction false} PairShownInOrder(facts: Facts, events: seq<Event>, profile: Profile,
                                            shown: seq<Annotation>, a: Event, b: Event)
    requires ValidateFacts(facts, events).Success? && AllEventsPlayed(facts, events) && a in events && b in events
    requires AllInMatchOrder(Rows(facts, events, profile), shown)
    requires AreShown(shown, events) && ShownBy(ScreenOf(facts, events, profile), shown)
    ensures InTurn(ScreenOf(facts, events, profile), a, b)
  {
    PlayedEventsHaveSlots(facts, events, profile, a);
    PlayedEventsHaveSlots(facts, events, profile, b);
    var k :| 0 <= k < |shown| && shown[k].event == a;
    var m :| 0 <= m < |shown| && shown[m].event == b;
  }

  lemma {:induction false} DisplayIsShown(facts: Facts, events: seq<Event>, profile: Profile)
    requires ValidateFacts(facts, events).Success?
    requires PlaceAll(Rows(facts, events, profile), events, |events|).Success?
    ensures var shown := DisplayOrder(Rows(facts, events, profile), events);
      AreShown(shown, events) && ShownBy(ScreenOf(facts, events, profile), shown)
  {
    DisplayedAnnotations(Rows(facts, events, profile), events);
    ShownIsStrict(facts, events, profile);
  }

  lemma {:induction false} OrderedShowMeansInTurn(facts: Facts, events: seq<Event>, profile: Profile)
    requires ValidateFacts(facts, events).Success? && AllEventsPlayed(facts, events)
    requires PlaceAll(Rows(facts, events, profile), events, |events|).Success?
    requires AllInMatchOrder(Rows(facts, events, profile), DisplayOrder(Rows(facts, events, profile), events))
    ensures EventsInTurn(ScreenOf(facts, events, profile), events)
  {
    DisplayIsShown(facts, events, profile);
    var screen, shown := ScreenOf(facts, events, profile), DisplayOrder(Rows(facts, events, profile), events);
    forall i, j | 0 <= i < |events| && 0 <= j < |events| ensures InTurn(screen, events[i], events[j]) {
      PairShownInOrder(facts, events, profile, shown, events[i], events[j]);
    }
  }

  // ---- goals in match order ----

  /** When the halves follow each other, goals are displayed, and so replayed, in match order. */
  lemma {:induction false} GoalsFollowTheMatch(facts: Facts, events: seq<Event>, profile: Profile)
    requires ValidateFacts(facts, events).Success? && AllEventsPlayed(facts, events)
    requires ScreenOf(facts, events, profile).MinutesAreVisible()
        && ScreenOf(facts, events, profile).SecondHalfFollows()
    ensures var screen := ScreenOf(facts, events, profile);
      Sorting.Sort(ScoringOnly(events), ShownOrder(screen)) == Sorting.Sort(ScoringOnly(events), MatchOrder(screen))
  {
    var screen := ScreenOf(facts, events, profile);
    ScoringOnlyMembers(events);
    FollowingHalvesKeepEventsInTurn(facts, events, profile);
    forall a, b | a in events && b in events ensures screen.Shows(a, b) == screen.Precedes(a, b) {
      SlotsDecideOrder(facts, events, profile, a, b);
    }
    Sorting.SortCongruence(ScoringOnly(events), ShownOrder(screen), MatchOrder(screen));
  }

  lemma {:induction false} SlotsDecideOrder(facts: Facts, events: seq<Event>, profile: Profile, a: Event, b: Event)
    requires ValidateFacts(facts, events).Success? && AllEventsPlayed(facts, events) && a in events && b in events
    requires ScreenOf(facts, events, profile).MinutesAreVisible()
        && ScreenOf(facts, events, profile).SecondHalfFollows()
    ensures ScreenOf(facts, events, profile).Shows(a, b) == ScreenOf(facts, events, profile).Precedes(a, b)
  {
    var screen := ScreenOf(facts, events, profile);
    PlayedEventsHaveSlots(facts, events, profile, a);
    PlayedEventsHaveSlots(facts, events, profile, b);
    if screen.SlotOf(a) < screen.SlotOf(b) { LaterSlotsAreLater(screen, screen.SlotOf(a), screen.SlotOf(b)); }
    if screen.SlotOf(b) < screen.SlotOf(a) { LaterSlotsAreLater(screen, screen.SlotOf(b), screen.SlotOf(a)); }
  }

  /**
   When the halves follow each other, success depends on the goals' scores in match order alone: by minute
   of the match and event order, not by anything on the video.
   */
  lemma {:induction false} BuildFollowsTheMatch(facts: Facts, events: seq<Event>, metrics: seq<Metric>,
                                                profile: Profile)
    requires ValidateFacts(facts, events).Success? && ScreenOf(facts, events, profile).SecondHalfFollows()
    ensures Build(facts, events, metrics, profile).Success?
       <==> AllPeriodsFit(facts, events) && AllEventsPlayed(facts, events) && ShootoutHasNoStoppage(events)
            && ScreenOf(facts, events, profile).MinutesAreVisible()
            && GoalsStepUp(facts, Sorting.Sort(ScoringOnly(events), MatchOrder(ScreenOf(facts, events, profile))))
  {
    BuildSucceedsExactly(facts, events, metrics, profile);
    if AllEventsPlayed(facts, events) && ScreenOf(facts, events, profile).MinutesAreVisible() {
      GoalsFollowTheMatch(facts, events, profile);
    }
  }

  // ---- a video that shows the second half first ----

  function LateGoal(): Event {
    Event("late", 1, Goal, FirstHalf, Some(45), None, Some(2), Some(0), false, false, true)
  }

  function EarlyGoal(): Event {
    Event("early", 2, Goal, SecondHalf, Some(46), None, Some(1), Some(0), false, false, true)
  }

  /** Forty-five seconds of regulation and a halftime insert of minus ten: no check refuses it. */
  function BackwardProfile(): Profile {
    Profile(45.0, 0.0, -10.0, 0.0, 0.0)
  }

  lemma {:induction false} BackwardEventsAreAccepted()
    ensures ValidateFootballEvents(PlainMatch(), [LateGoal(), EarlyGoal()], 105 * MINUTE).Success?
  {
    var events := [LateGoal(), EarlyGoal()];
    assert forall e :: e in events ==> EventDefect(e).None?;
  }

  lemma {:induction false} BackwardFacts()
    ensures ValidateFacts(PlainMatch(), [LateGoal(), EarlyGoal()]).Success?
  {
    BackwardEventsAreAccepted();
  }

  lemma {:induction false} TwoHalves(first: PeriodSpec, second: PeriodSpec)
    requires first == PeriodSpec(FirstHalf, 1, 45, 0, 0, 45 * MINUTE)
    requires second == PeriodSpec(SecondHalf, 46, 90, 0, 60 * MINUTE, 105 * MINUTE)
    ensures Weights([first, second]) == 90
    ensures Slot([first, second], LateGoal()) == Some(44) && Slot([first, second], EarlyGoal()) == Some(45)
  {
    var specs := [first, second];
    assert specs[1..] == [second] && [second][1..] == [];
    assert Weights(specs[1..]) == 45;
    assert Slot(specs[1..], EarlyGoal()) == Some(0);
  }

  lemma {:induction false} BackwardScreen()
    requires ValidateFacts(PlainMatch(), [LateGoal(), EarlyGoal()]).Success?
    ensures var screen := ScreenOf(PlainMatch(), [LateGoal(), EarlyGoal()], BackwardProfile());
      screen.MinutesAreVisible() && screen.SlotOf(LateGoal()) == 44 && screen.SlotOf(EarlyGoal()) == 45
      && screen.Start(45) < screen.Start(44)
  {
    var specs := MinuteSpecs(PlainMatch(), [LateGoal(), EarlyGoal()]);
    TwoHalves(specs[0], specs[1]);
    assert specs == [specs[0], specs[1]];
  }

  lemma {:induction false} BackwardEventsArePlayed()
    requires ValidateFacts(PlainMatch(), [LateGoal(), EarlyGoal()]).Success?
    ensures AllPeriodsFit(PlainMatch(), [LateGoal(), EarlyGoal()])
    ensures AllEventsPlayed(PlainMatch(), [LateGoal(), EarlyGoal()])
    ensures ShootoutHasNoStoppage([LateGoal(), EarlyGoal()])
  {
  }

  lemma {:induction false} BackwardIsBuildable()
    ensures Buildable(PlainMatch(), [LateGoal(), EarlyGoal()], BackwardProfile())
    ensures Sorting.Sort(ScoringOnly([LateGoal(), EarlyGoal()]),
        ShownOrder(ScreenOf(PlainMatch(), [LateGoal(), EarlyGoal()], BackwardProfile())))
         == [EarlyGoal(), LateGoal()]
  {
    BackwardFacts();
    BackwardEventsArePlayed();
    BackwardScreen();
    BackwardGoals(ScreenOf(PlainMatch(), [LateGoal(), EarlyGoal()], BackwardProfile()));
  }

  lemma {:induction false} NormalizedPair(shown: seq<Annotation>)
    requires |shown| == 2 && Replays(shown)
    ensures Normalized(shown)[0].event.id == shown[0].event.id && Normalized(shown)[1].event.id == shown[1].event.id
  {
    ShownScoreCountsGoals(shown, 0);
    ShownScoreCountsGoals(shown, 1);
  }

  lemma {:induction false} TwoGoalsAreShown(rows: seq<Band>, events: seq<Event>, shown: seq<Annotation>)
    requires events == [LateGoal(), EarlyGoal()] && PlaceAll(rows, events, |events|).Success?
    requires shown == DisplayOrder(rows, events) && |shown| == 2
    requires ScoringEvents(shown, |shown|) == [EarlyGoal(), LateGoal()]
    ensures shown[0].event == EarlyGoal() && shown[1].event == LateGoal()
  {
    BothAreGoals(rows, events, shown);
    assert [EarlyGoal(), LateGoal()][0] == [shown[0].event, shown[1].event][0];
    assert [EarlyGoal(), LateGoal()][1] == [shown[0].event, shown[1].event][1];
  }

  /**
   A build that succeeds and shows the second half's first goal before the first half's last one. It is
   accepted because the scores supplied, 2-0 in the 45th minute and 1-0 in the 46th, step up backwards.
   */
  lemma {:induction false} SecondHalfMayComeFirst(metrics: seq<Metric>)
    ensures var r := Build(PlainMatch(), [LateGoal(), EarlyGoal()], metrics, BackwardProfile());
      r.Success? && |r.value.annotations| == 2
      && r.value.annotations[0].event.id == EarlyGoal().id && r.value.annotations[1].event.id == LateGoal().id
  {
    var facts, events, profile := PlainMatch(), [LateGoal(), EarlyGoal()], BackwardProfile();
    BackwardIsBuildable();
    BuildSucceedsExactly(facts, events, metrics, profile);
    BuiltStoryIsCandidate(facts, events, metrics, profile);
    GoalsAreShownInOrder(facts, events, profile);
    var shown := DisplayOrder(Rows(facts, events, profile), events);
    TwoGoalsAreShown(Rows(facts, events, profile), events, shown);
    NormalizedPair(shown);
  }

  lemma {:induction false} SortSwaps<T>(a: T, b: T, leq: (T, T) -> bool)
    requires !leq(a, b)
    ensures Sorting.Sort([a, b], leq) == [b, a]
  {
    assert [a, b][1..] == [b] && [b][1..] == [];
    assert Sorting.Sort([b], leq) == [b];
    assert Sorting.Insert(a, [], leq) == [a];
  }

  lemma {:induction false} BackwardGoals(screen: Screen)
    requires screen.SlotOf(LateGoal()) == 44 && screen.SlotOf(EarlyGoal()) == 45 && screen.Start(45) < screen.Start(44)
    ensures Sorting.Sort(ScoringOnly([LateGoal(), EarlyGoal()]), ShownOrder(screen)) == [EarlyGoal(), LateGoal()]
    ensures GoalsStepUp(PlainMatch(), [EarlyGoal(), LateGoal()])
  {
    SortSwaps(LateGoal(), EarlyGoal(), ShownOrder(screen));
  }

  lemma {:induction false} BothAreGoals(rows: seq<Band>, events: seq<Event>, shown: seq<Annotation>)
    requires events == [LateGoal(), EarlyGoal()] && PlaceAll(rows, events, |events|).Success?
    requires shown == DisplayOrder(rows, events) && |shown| == 2
    ensures ScoringEvents(shown, 2) == [shown[0].event, shown[1].event]
  {
    DisplayedAnnotations(rows, events);
    assert PlacedFrom(rows, events, shown[0]) && PlacedFrom(rows, events, shown[1]);
    assert IsScoring(shown[0].event) && IsScoring(shown[1].event);
    assert ScoringEvents(shown, 1) == [shown[0].event];
  }

  // ---- scores ----

  /** Every annotation and checkpoint counts goals, and the end is the declared score. */
  ghost predicate ScoresCountGoals(facts: Facts, annotations: seq<Annotation>, checkpoints: seq<Checkpoint>) {
    var n := |annotations|;
    && |checkpoints| == Goals(annotations, n) + 1
    && (forall i :: 0 <= i < n ==>
          annotations[i].event.home.GetOr(0) + annotations[i].event.away.GetOr(0) == Goals(annotations, i + 1))
    && (forall k :: 0 <= k < |checkpoints| ==> checkpoints[k].home + checkpoints[k].away == k)
    && (facts.homeScore.Some? && facts.awayScore.Some? ==>
          checkpoints[|checkpoints| - 1].home == facts.homeScore.value
          && checkpoints[|checkpoints| - 1].away == facts.awayScore.value)
  }

  /** A built story's scores count its goals up to the declared result. */
  lemma {:induction false} BuiltScoresCountGoals(facts: Facts, events: seq<Event>, metrics: seq<Metric>,
                                                 profile: Profile)
    requires Build(facts, events, metrics, profile).Success?
    ensures var story := Build(facts, events, metrics, profile).value;
            ScoresCountGoals(facts, story.annotations, story.checkpoints)
  {
    BuiltStoryIsCandidate(facts, events, metrics, profile);
    var shown := DisplayOrder(Rows(facts, events, profile), events);
    FinalScoreAgrees(facts, events, profile, shown);
    ReplayCounts(facts, shown);
  }

  lemma {:induction false} ReplayCounts(facts: Facts, shown: seq<Annotation>)
    requires Replays(shown) && FinalAgrees(facts, Scoreboard(shown, |shown|).value)
    ensures ScoresCountGoals(facts, Normalized(shown), Checkpoints(shown, |shown|))
  {
    ReplayedScoresCountGoals(shown);
    CheckpointsCountGoals(shown, |shown|);
  }

  lemma {:induction false} ReplayedScoresCountGoals(shown: seq<Annotation>)
    requires Replays(shown)
    ensures forall i :: 0 <= i <= |shown| ==> Goals(Normalized(shown), i) == Goals(shown, i)
    ensures forall i :: 0 <= i < |shown| ==>
              Normalized(shown)[i].event.home.GetOr(0) + Normalized(shown)[i].event.away.GetOr(0)
              == Goals(Normalized(shown), i + 1)
  {
    forall i | 0 <= i <= |shown| ensures Goals(Normalized(shown), i) == Goals(shown, i) {
      NormalizingKeepsGoals(shown, i);
    }
    forall i | 0 <= i < |shown|
      ensures Normalized(shown)[i].event.home.GetOr(0) + Normalized(shown)[i].event.away.GetOr(0)
              == Goals(Normalized(shown), i + 1)
    {
      ShownScoreCountsGoals(shown, i);
    }
  }

  lemma {:induction false} NormalizingKeepsGoals(shown: seq<Annotation>, n: nat)
    requires Replays(shown) && n <= |shown|
    ensures Goals(Normalized(shown), n) == Goals(shown, n)
  {
    if n > 0 { NormalizingKeepsGoals(shown, n - 1); }
  }

  lemma {:induction false} FinalScoreAgrees(facts: Facts, events: seq<Event>, profile: Profile, shown: seq<Annotation>)
    requires Buildable(facts, events, profile)
    requires PlaceAll(Rows(facts, events, profile), events, |events|).Success?
    requires shown == DisplayOrder(Rows(facts, events, profile), events) && Replays(shown)
    ensures FinalAgrees(facts, Scoreboard(shown, |shown|).value)
  {
    ReplayNeedsSteps(facts, events, profile);
  }

  // ---- reactions in exact time ----

  /** The role has an observation in the half-open or closed stretch of microseconds. */
  ghost predicate ObservedBefore(metrics: seq<Metric>, role: string, periodStart: Option<int>, start: int) {
    exists m :: m in metrics && m.role == role && m.timestamp * MILLISECOND < start
                && (periodStart.Some? ==> periodStart.value <= m.timestamp * MILLISECOND)
  }

  ghost predicate ObservedFrom(metrics: seq<Metric>, role: string, end: int, periodEnd: int) {
    exists m :: m in metrics && m.role == role && end <= m.timestamp * MILLISECOND <= periodEnd
  }

  lemma {:induction false} BeforeInExactTime(metrics: seq<Metric>, role: string, start: int, periodStart: Option<int>)
    ensures var bound := if periodStart.Some? then Some(CeilMs(periodStart.value)) else None;
            var before := Before(RoleRows(metrics, role), CeilMs(start), bound);
            && (before.Some? <==> ObservedBefore(metrics, role, periodStart, start))
            && (before.Some? ==>
                exists m :: IsLatestBefore(metrics, role, CeilMs(start), m) && before.value == Project(m))
  {
    var bound := if periodStart.Some? then Some(CeilMs(periodStart.value)) else None;
    BeforeIsLatest(metrics, role, CeilMs(start), bound);
    forall m: Metric | m in metrics
      ensures m.timestamp < CeilMs(start) <==> m.timestamp * MILLISECOND < start
      ensures periodStart.Some? ==>
          (m.timestamp < CeilMs(periodStart.value) <==> m.timestamp * MILLISECOND < periodStart.value)
    {
      MillisecondsCompareExactly(m.timestamp, start);
      if periodStart.Some? { MillisecondsCompareExactly(m.timestamp, periodStart.value); }
    }
  }

  lemma {:induction false} AfterInExactTime(metrics: seq<Metric>, role: string, end: int, periodEnd: int)
    ensures var after := After(RoleRows(metrics, role), CeilMs(end), FloorMs(periodEnd));
            && (after.Some? <==> ObservedFrom(metrics, role, end, periodEnd))
            && (after.Some? ==> exists m :: IsEarliestFrom(metrics, role, CeilMs(end), m) && after.value == Project(m))
            && (after.Some? ==> end <= after.value.timestamp * MILLISECOND <= periodEnd)
  {
    AfterIsEarliest(metrics, role, CeilMs(end), FloorMs(periodEnd));
    forall m: Metric | m in metrics
      ensures m.timestamp >= CeilMs(end) <==> m.timestamp * MILLISECOND >= end
      ensures m.timestamp <= FloorMs(periodEnd) <==> m.timestamp * MILLISECOND <= periodEnd
    {
      MillisecondsCompareExactly(m.timestamp, end);
      MillisecondsCompareExactly(m.timestamp, periodEnd);
    }
  }

  /** The observation quoted, if any, is the role's latest before the instant and inside the period. */
  ghost predicate QuotesBefore(metrics: seq<Metric>, role: string, start: int, periodStart: Option<int>,
                               before: Option<Observation>)
  {
    && (before.Some? <==> ObservedBefore(metrics, role, periodStart, start))
    && (before.Some? ==> exists m :: IsLatestBefore(metrics, role, CeilMs(start), m) && before.value == Project(m))
  }

  /** The observation quoted, if any, is the role's earliest from the instant on and inside the period. */
  ghost predicate QuotesAfter(metrics: seq<Metric>, role: string, end: int, periodEnd: int,
                              after: Option<Observation>)
  {
    && (after.Some? <==> ObservedFrom(metrics, role, end, periodEnd))
    && (after.Some? ==> exists m :: IsEarliestFrom(metrics, role, CeilMs(end), m) && after.value == Project(m))
  }

  /**
   A reaction to the band [S, E) of a period [start, end], in microseconds: both windows quote the same
   observation before S, in the period or, for the first half, at any time; the primary window quotes one
   from E on, the extended one from the end of the following band of the period on, if there is one.
   */
  ghost predicate ReactionIsExact(rows: seq<Band>, index: nat, role: string, metrics: seq<Metric>, start: int,
                                  end: int, r: Reaction)
    requires index < |rows|
  {
    var row := rows[index];
    && QuotesBefore(metrics, role, row.sourceStart,
                    if row.period == FirstHalf then None else Some(start), r.primary.before)
    && QuotesAfter(metrics, role, row.sourceEnd, end, r.primary.after)
    && r.extended.before == r.primary.before
    && (if index + 1 < |rows| && rows[index + 1].period == row.period
        then QuotesAfter(metrics, role, rows[index + 1].sourceEnd, end, r.extended.after)
        else r.extended.after.None?)
  }

  lemma {:induction false} ReactionsAreExact(rows: seq<Band>, index: nat, id: string, role: string,
                                             metrics: seq<Metric>, start: int, end: int)
    requires index < |rows| && RowsTilePeriod(PeriodRows(rows, rows[index].period), start, end)
    ensures ReactionIsExact(rows, index, role, metrics, start, end,
        ReactionAt(rows, index, id, role, RoleRows(metrics, role)))
  {
    PeriodBoundsAgree(rows, rows[index].period, start, end);
    BeforeInExactTime(metrics, role, rows[index].sourceStart,
                      if rows[index].period == FirstHalf then None else Some(start));
    AfterInExactTime(metrics, role, rows[index].sourceEnd, end);
    if index + 1 < |rows| { AfterInExactTime(metrics, role, rows[index + 1].sourceEnd, end); }
  }

  /**
   Every reaction of a built story answers one annotation outside the shootout, and is exact for its played
   period.
   */
  lemma {:induction false} BuiltReactionsAreExact(facts: Facts, events: seq<Event>, metrics: seq<Metric>,
                                                  profile: Profile, k: nat)
    returns (i: nat, played: Played)
    requires Build(facts, events, metrics, profile).Success?
    requires k < |Build(facts, events, metrics, profile).value.reactions|
    ensures var story := Build(facts, events, metrics, profile).value;
      var r := story.reactions[k];
      i < |story.annotations| && !story.annotations[i].event.shootout && r.eventId == story.annotations[i].event.id
      && EventIndex(story.bands, story.annotations[i].event).Some?
      && (var index := EventIndex(story.bands, story.annotations[i].event).value;
          played in PlayedPeriods(facts) && played.period == story.bands[index].period
          && ReactionIsExact(story.bands, index, r.role, metrics, played.start, played.end, r))
  {
    BuildSucceedsExactly(facts, events, metrics, profile);
    BuiltStoryIsCandidate(facts, events, metrics, profile);
    var story := Build(facts, events, metrics, profile).value;
    BuiltAnnotationsArePlaced(facts, events, profile);
    var role;
    i, role := ReactionOrigin(story.bands, story.annotations, metrics, k);
    var e := story.annotations[i].event;
    var index := EventIndex(story.bands, e).value;
    AnnotatedOutsideShootout(facts, events, profile, i);
    played :| played in PlayedPeriods(facts) && played.period == story.bands[index].period;
    ReactionsAreExact(story.bands, index, e.id, role, metrics, played.start, played.end);
  }

  lemma {:induction false} BuiltAnnotationsArePlaced(facts: Facts, events: seq<Event>, profile: Profile)
    requires ValidateFacts(facts, events).Success?
    requires PlaceAll(Rows(facts, events, profile), events, |events|).Success?
    requires Replays(DisplayOrder(Rows(facts, events, profile), events))
    ensures AllPlaced(Rows(facts, events, profile), Normalized(DisplayOrder(Rows(facts, events, profile), events)))
  {
    AcceptedFacts(facts, events);
    DisplayedNonShootoutIsPlaced(Rows(facts, events, profile), events);
    NormalizingKeepsPlaces(Rows(facts, events, profile), DisplayOrder(Rows(facts, events, profile), events));
  }

  lemma {:induction false} AnnotatedOutsideShootout(facts: Facts, events: seq<Event>, profile: Profile, i: nat)
    requires ValidateFacts(facts, events).Success?
    requires PlaceAll(Rows(facts, events, profile), events, |events|).Success?
    requires Replays(DisplayOrder(Rows(facts, events, profile), events))
    requires i < |DisplayOrder(Rows(facts, events, profile), events)|
    ensures var e := Normalized(DisplayOrder(Rows(facts, events, profile), events))[i].event;
      !e.shootout ==> e.period != Penalties
  {
    var rows := Rows(facts, events, profile);
    var shown := DisplayOrder(rows, events);
    AcceptedFacts(facts, events);
    DisplayedAnnotations(rows, events);
    forall k | 0 <= k < |shown| ensures shown[k].event in events { assert PlacedFrom(rows, events, shown[k]); }
    ShownOutsideShootout(events, rows, shown);
  }

  /** A period's last band is followed only by an observation at the very instant the period ends. */
  lemma {:induction false} LastBandNeedsExactInstant(rows: seq<Band>, index: nat, id: string, role: string,
                                                     metrics: seq<Metric>, start: int, end: int)
    requires index < |rows| && RowsTilePeriod(PeriodRows(rows, rows[index].period), start, end)
    requires rows[index].sourceEnd == end
    ensures var r := ReactionAt(rows, index, id, role, RoleRows(metrics, role));
            && (r.primary.after.Some?
                <==> exists m :: m in metrics && m.role == role && m.timestamp * MILLISECOND == end)
            && (r.primary.after.Some? ==> r.primary.after.value.timestamp * MILLISECOND == end)
  {
    PeriodBoundsAgree(rows, rows[index].period, start, end);
    AfterInExactTime(metrics, role, end, end);
  }
}
