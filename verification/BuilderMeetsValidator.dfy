/**
 The builder meets its validator. `Build` returns a story exactly when the facts are accepted, every
 period outlasts its bands but the last, every event lies in a played minute, the goals step up to the
 declared score, every band is on screen for at least one tick, and no shootout event carries a
 stoppage minute. The last two are the only reasons the validator ever has to refuse.
 */
module BuilderMeetsValidator {
  import opened Wrappers
  import opened Timescale
  import opened Counting
  import opened MatchFacts
  import opened MinuteBands
  import opened VideoTimeline
  import opened ScoreReplay
  import opened Reactions
  import opened StoryValidator
  import opened PortraitStory
  import opened ScreenLayout
  import Sorting

  // ---- rows of one period ----

  lemma {:induction false} PeriodRowsAppend(a: seq<Band>, b: seq<Band>, period: Period)
    ensures PeriodRows(a + b, period) == PeriodRows(a, period) + PeriodRows(b, period)
  {
    if a == [] {
      assert a + b == b;
    } else {
      assert (a + b)[0] == a[0] && (a + b)[1..] == a[1..] + b;
      PeriodRowsAppend(a[1..], b, period);
      var own := if a[0].period == period then [a[0]] else [];
      assert own + (PeriodRows(a[1..], period) + PeriodRows(b, period))
          == (own + PeriodRows(a[1..], period)) + PeriodRows(b, period);
    }
  }

  lemma {:induction false} PeriodRowsMembers(bands: seq<Band>, period: Period)
    ensures forall row :: row in PeriodRows(bands, period) <==> row in bands && row.period == period
  {
    if bands != [] {
      PeriodRowsMembers(bands[1..], period);
      assert bands == [bands[0]] + bands[1..];
    }
  }

  lemma {:induction false} PeriodRowsOfOnePeriod(rows: seq<Band>, own: Period, period: Period)
    requires forall i :: 0 <= i < |rows| ==> rows[i].period == own
    ensures PeriodRows(rows, period) == if own == period then rows else []
  {
    if rows != [] {
      PeriodRowsOfOnePeriod(rows[1..], own, period);
      assert rows == [rows[0]] + rows[1..];
    }
  }

  lemma {:induction false} PeriodRowsOfAbsent(specs: seq<PeriodSpec>, cursor: real, step: real, halftime: real,
                                              period: Period)
    requires forall k :: 0 <= k < |specs| ==> specs[k].Valid() && specs[k].period != period
    ensures PeriodRows(RegularBands(specs, cursor, step, halftime), period) == []
  {
    if specs != [] {
      var own, next := SpecBands(specs[0], cursor, step), NextCursor(specs[0], cursor, step, halftime);
      PeriodRowsAppend(own, RegularBands(specs[1..], next, step, halftime), period);
      PeriodRowsOfOnePeriod(own, specs[0].period, period);
      PeriodRowsOfAbsent(specs[1..], next, step, halftime, period);
    }
  }

  /** The rows of a period are its own bands, in order. */
  lemma {:induction false} PeriodRowsOfSpec(specs: seq<PeriodSpec>, cursor: real, step: real, halftime: real, j: nat)
    returns (c: real)
    requires ValidSpecs(specs) && j < |specs|
    ensures PeriodRows(RegularBands(specs, cursor, step, halftime), specs[j].period) == SpecBands(specs[j], c, step)
  {
    var period := specs[j].period;
    var own, next := SpecBands(specs[0], cursor, step), NextCursor(specs[0], cursor, step, halftime);
    PeriodRowsAppend(own, RegularBands(specs[1..], next, step, halftime), period);
    PeriodRowsOfOnePeriod(own, specs[0].period, period);
    if j == 0 {
      c := cursor;
      PeriodRowsOfAbsent(specs[1..], next, step, halftime, period);
    } else {
      c := PeriodRowsOfSpec(specs[1..], next, step, halftime, j - 1);
    }
  }

  /** The index of a spec's first row. */
  function Offset(specs: seq<PeriodSpec>, j: nat): nat
    requires j <= |specs| && forall m :: 0 <= m < |specs| ==> specs[m].Valid()
  {
    if j == 0 then 0 else specs[0].Count() + Offset(specs[1..], j - 1)
  }

  /** An index lies in one spec at one offset only. */
  lemma {:induction false} OffsetsAreUnique(specs: seq<PeriodSpec>, j: nat, k: nat, j': nat, k': nat)
    requires forall m :: 0 <= m < |specs| ==> specs[m].Valid()
    requires j < |specs| && j' < |specs| && k < specs[j].Count() && k' < specs[j'].Count()
    requires Offset(specs, j) + k == Offset(specs, j') + k'
    ensures j == j' && k == k'
  {
    if j > 0 && j' > 0 { OffsetsAreUnique(specs[1..], j - 1, k, j' - 1, k'); }
  }

  /** Every row belongs to the period of the one spec its index lies in, and carries that minute's label and bounds. */
  lemma {:induction false} RowComesFromSpec(specs: seq<PeriodSpec>, cursor: real, step: real, halftime: real, i: nat)
    returns (j: nat, k: nat, c: real)
    requires forall m :: 0 <= m < |specs| ==> specs[m].Valid()
    requires i < |RegularBands(specs, cursor, step, halftime)|
    ensures j < |specs| && k < specs[j].Count() && i == Offset(specs, j) + k
    ensures RegularBands(specs, cursor, step, halftime)[i] == SpecBand(specs[j], c, step, k)
  {
    var n, next := specs[0].Count(), NextCursor(specs[0], cursor, step, halftime);
    if i < n {
      j, k, c := 0, i, cursor;
    } else {
      j, k, c := RowComesFromSpec(specs[1..], next, step, halftime, i - n);
      j := j + 1;
    }
  }

  // ---- the rows a build makes ----

  lemma {:induction false} RegularRowsArePlayed(facts: Facts, events: seq<Event>, profile: Profile)
    requires ValidateFacts(facts, events).Success?
    ensures forall i :: 0 <= i < |Regular(facts, events, profile)| ==>
              Regular(facts, events, profile)[i].period != Penalties
              && exists j :: 0 <= j < |MinuteSpecs(facts, events)|
                             && MinuteSpecs(facts, events)[j].period == Regular(facts, events, profile)[i].period
  {
    AcceptedFacts(facts, events);
    var specs, step := MinuteSpecs(facts, events), Step(facts, events, profile);
    forall i | 0 <= i < |Regular(facts, events, profile)|
      ensures Regular(facts, events, profile)[i].period != Penalties
              && exists j :: 0 <= j < |specs| && specs[j].period == Regular(facts, events, profile)[i].period
    {
      var j, k, c := RowComesFromSpec(specs, profile.preMatch, step, profile.halftime, i);
      assert ValidSpec(specs[j]);
    }
  }

  /** The rows of one spec's period among all rows. */
  lemma {:induction false} SpecRows(facts: Facts, events: seq<Event>, profile: Profile, s: PeriodSpec) returns (c: real)
    requires ValidateFacts(facts, events).Success? && PeriodsInOrder(facts)
    requires s in MinuteSpecs(facts, events) && s.Valid()
    ensures PeriodRows(Rows(facts, events, profile), s.period) == SpecBands(s, c, Step(facts, events, profile))
    ensures PeriodRows(Regular(facts, events, profile), s.period) == SpecBands(s, c, Step(facts, events, profile))
  {
    OrderedPeriodsGiveValidSpecs(facts, events);
    var specs, step := MinuteSpecs(facts, events), Step(facts, events, profile);
    var j :| 0 <= j < |specs| && specs[j] == s;
    assert ValidSpec(specs[j]);
    c := PeriodRowsOfSpec(specs, profile.preMatch, step, profile.halftime, j);
    var cursor := CursorAfter(specs, profile.preMatch, step, profile.halftime);
    if HasPenalties(events) {
      PeriodRowsAppend(Regular(facts, events, profile), [ShootoutBand(facts, events, profile, cursor)], s.period);
    }
  }

  lemma {:induction false} PlayedMatchesSpecs(facts: Facts, events: seq<Event>)
    ensures |PlayedPeriods(facts)| == |MinuteSpecs(facts, events)|
    ensures forall j :: 0 <= j < |PlayedPeriods(facts)| ==>
              PlayedPeriods(facts)[j]
              == Played(MinuteSpecs(facts, events)[j].period, MinuteSpecs(facts, events)[j].start,
                        MinuteSpecs(facts, events)[j].end)
  {
  }

  // ---- the six conditions ----

  ghost predicate AllPeriodsFit(facts: Facts, events: seq<Event>) {
    forall period, start, end :: IsPlayed(facts, period, start, end) ==> Outlasts(events, period, start, end)
  }

  lemma {:induction false} AllPeriodsFitExactly(facts: Facts, events: seq<Event>)
    requires PeriodsInOrder(facts) && ValidSpecs(MinuteSpecs(facts, events))
    ensures AllPeriodsFit(facts, events)
       <==> forall j :: 0 <= j < |MinuteSpecs(facts, events)| ==> MinuteSpecs(facts, events)[j].Fits()
  {
    var specs := MinuteSpecs(facts, events);
    forall j | 0 <= j < |specs|
      ensures IsPlayed(facts, specs[j].period, specs[j].start, specs[j].end)
      ensures specs[j].Fits() <==> Outlasts(events, specs[j].period, specs[j].start, specs[j].end)
    {
      assert ValidSpec(specs[j]) && specs[j] in specs;
      SpecsArePlayed(facts, events, specs[j]);
      SpecFitsExactly(facts, events, specs[j]);
    }
    if forall j :: 0 <= j < |specs| ==> specs[j].Fits() {
      forall period, start: int, end: int | IsPlayed(facts, period, start, end)
        ensures Outlasts(events, period, start, end)
      {
        PlayedHasSpec(facts, events, period, start, end);
        var s :| s in specs && (s.period, s.start, s.end) == (period, start, end);
        var j :| 0 <= j < |specs| && specs[j] == s;
      }
    }
  }

  ghost predicate AllEventsPlayed(facts: Facts, events: seq<Event>) {
    forall i :: 0 <= i < |events| && events[i].period != Penalties ==> InPlayedMinute(facts, events[i])
  }

  ghost predicate ShootoutHasNoStoppage(events: seq<Event>) {
    forall i :: 0 <= i < |events| && events[i].period == Penalties ==> events[i].stoppage.None?
  }

  /** The scoring events, in the order in which the video shows them, step up by one goal to the declared score. */
  ghost predicate GoalsStepUp(facts: Facts, goals: seq<Event>) {
    StepsByOne(goals) && SuppliedFinalAgrees(facts, goals)
  }

  /** Six conditions on the inputs alone: none mentions a row, an annotation or anything else that is built. */
  ghost predicate Buildable(facts: Facts, events: seq<Event>, profile: Profile) {
    && ValidateFacts(facts, events).Success?
    && AllPeriodsFit(facts, events)
    && AllEventsPlayed(facts, events)
    && ScreenOf(facts, events, profile).MinutesAreVisible()
    && ShootoutHasNoStoppage(events)
    && GoalsStepUp(facts, Sorting.Sort(ScoringOnly(events), ShownOrder(ScreenOf(facts, events, profile))))
  }

  // ---- placing events ----

  lemma {:induction false} RegularRowHasLabel(facts: Facts, events: seq<Event>, profile: Profile, e: Event, i: nat)
    requires ValidateFacts(facts, events).Success?
    requires i < |Regular(facts, events, profile)|
    requires HasKey(Regular(facts, events, profile)[i], e.period, e.minute, e.stoppage)
    ensures exists s ::
              s in MinuteSpecs(facts, events) && s.Valid() && s.period == e.period && HasLabel(s, e.minute, e.stoppage)
  {
    AcceptedFacts(facts, events);
    var specs, step := MinuteSpecs(facts, events), Step(facts, events, profile);
    var j, k, c := RowComesFromSpec(specs, profile.preMatch, step, profile.halftime, i);
    assert ValidSpec(specs[j]);
    LabelIsUnique(specs[j], e.minute, e.stoppage, k);
    assert specs[j] in specs;
  }

  lemma {:induction false} LabelHasRow(rows: seq<Band>, s: PeriodSpec, c: real, step: real, e: Event)
    requires s.Valid() && s.period == e.period && HasLabel(s, e.minute, e.stoppage)
    requires PeriodRows(rows, s.period) == SpecBands(s, c, step)
    ensures EventIndex(rows, e).Some?
  {
    var k := LabelOffset(s, e.minute, e.stoppage);
    LabelIsUnique(s, e.minute, e.stoppage, k);
    var row := SpecBand(s, c, step, k);
    assert row == SpecBands(s, c, step)[k];
    assert row in PeriodRows(rows, s.period);
    PeriodRowsMembers(rows, s.period);
    var i :| 0 <= i < |rows| && rows[i] == row;
    KeyIndexFindsKeys(rows, e.period, e.minute, e.stoppage, i);
  }

  lemma {:induction false} PlayedMinuteHasRow(facts: Facts, events: seq<Event>, profile: Profile, e: Event)
    requires ValidateFacts(facts, events).Success? && e in events && e.period != Penalties && InPlayedMinute(facts, e)
    ensures Placement(Rows(facts, events, profile), e).Some?
  {
    AcceptedFacts(facts, events);
    EventHasBandExactly(facts, events, e);
    var s :| s in MinuteSpecs(facts, events) && s.Valid() && s.period == e.period && HasLabel(s, e.minute, e.stoppage);
    var c := SpecRows(facts, events, profile, s);
    LabelHasRow(Rows(facts, events, profile), s, c, Step(facts, events, profile), e);
  }

  /** An event outside the shootout finds its row exactly when its minute was played. */
  lemma {:induction false} PlacementExactly(facts: Facts, events: seq<Event>, profile: Profile, e: Event)
    requires ValidateFacts(facts, events).Success? && e in events
    ensures e.period != Penalties ==>
              (Placement(Rows(facts, events, profile), e).Some? <==> InPlayedMinute(facts, e))
    ensures e.period == Penalties ==> Placement(Rows(facts, events, profile), e).Some?
  {
    AcceptedFacts(facts, events);
    var rows, regular := Rows(facts, events, profile), Regular(facts, events, profile);
    if e.period == Penalties {
      KeyIndexFindsKeys(rows, Penalties, None, None, |rows| - 1);
    } else {
      if InPlayedMinute(facts, e) { PlayedMinuteHasRow(facts, events, profile, e); }
      if EventIndex(rows, e).Some? {
        var i := EventIndex(rows, e).value;
        assert i < |regular|;
        RegularRowHasLabel(facts, events, profile, e, i);
        EventHasBandExactly(facts, events, e);
      }
    }
  }

  lemma {:induction false} AllPlacedExactly(facts: Facts, events: seq<Event>, profile: Profile)
    requires ValidateFacts(facts, events).Success?
    ensures PlaceAll(Rows(facts, events, profile), events, |events|).Success? <==> AllEventsPlayed(facts, events)
  {
    var rows := Rows(facts, events, profile);
    PlaceAllPlaces(rows, events, |events|);
    forall i | 0 <= i < |events|
      ensures Placement(rows, events[i]).Some? <==> (events[i].period != Penalties ==> InPlayedMinute(facts, events[i]))
    {
      PlacementExactly(facts, events, profile, events[i]);
    }
  }

  // ---- bands ----

  lemma {:induction false} SpecBandsTile(spec: PeriodSpec, c: real, step: real)
    requires ValidSpec(spec) && spec.Fits()
    requires forall k :: 0 <= k < spec.Count() ==>
        SpecBands(spec, c, step)[k].videoStart < SpecBands(spec, c, step)[k].videoEnd
    ensures RowsTilePeriod(SpecBands(spec, c, step), spec.start, spec.end)
  {
    PeriodFitsExactly(spec);
    var rows := SpecBands(spec, c, step);
    forall k | 0 <= k < |rows|
      ensures rows[k].sourceStart == spec.BandStart(k) && rows[k].sourceEnd == spec.BandEnd(k)
    {
      assert rows[k] == SpecBand(spec, c, step, k);
    }
  }

  lemma {:induction false} BandsOfSpecTile(facts: Facts, events: seq<Event>, profile: Profile, j: nat)
    requires ValidateFacts(facts, events).Success? && j < |MinuteSpecs(facts, events)|
    requires ValidSpecs(MinuteSpecs(facts, events)) && MinuteSpecs(facts, events)[j].Fits()
    requires PositiveVideo(Regular(facts, events, profile))
    ensures var rows, spec := Rows(facts, events, profile), MinuteSpecs(facts, events)[j];
      PeriodRows(rows, spec.period) != [] && RowsTilePeriod(PeriodRows(rows, spec.period), spec.start, spec.end)
  {
    AcceptedFacts(facts, events);
    var spec := MinuteSpecs(facts, events)[j];
    assert ValidSpec(spec) && spec in MinuteSpecs(facts, events);
    var c := SpecRows(facts, events, profile, spec);
    PeriodRowsMembers(Regular(facts, events, profile), spec.period);
    var own := SpecBands(spec, c, Step(facts, events, profile));
    forall k | 0 <= k < |own| ensures own[k].videoStart < own[k].videoEnd {
      assert own[k] in Regular(facts, events, profile);
    }
    SpecBandsTile(spec, c, Step(facts, events, profile));
  }

  lemma {:induction false} BandsAreValid(facts: Facts, events: seq<Event>, profile: Profile)
    requires ValidateFacts(facts, events).Success? && AllPeriodsFit(facts, events)
    requires PositiveVideo(Regular(facts, events, profile))
    ensures InventoryMatches(facts, Rows(facts, events, profile))
    ensures PeriodsTile(facts, Rows(facts, events, profile))
  {
    AcceptedFacts(facts, events);
    AllPeriodsFitExactly(facts, events);
    PlayedMatchesSpecs(facts, events);
    var specs, rows, played := MinuteSpecs(facts, events), Rows(facts, events, profile), PlayedPeriods(facts);
    forall p | p in played
      ensures PeriodRows(rows, p.period) != [] && RowsTilePeriod(PeriodRows(rows, p.period), p.start, p.end)
    {
      var j :| 0 <= j < |played| && played[j] == p;
      assert p == Played(specs[j].period, specs[j].start, specs[j].end);
      BandsOfSpecTile(facts, events, profile, j);
    }
    RowsArePlayed(facts, events, profile);
  }

  lemma {:induction false} RowsArePlayed(facts: Facts, events: seq<Event>, profile: Profile)
    requires ValidateFacts(facts, events).Success?
    ensures var rows := Rows(facts, events, profile);
      forall i :: 0 <= i < |rows| && rows[i].period != Penalties ==>
        exists p :: p in PlayedPeriods(facts) && p.period == rows[i].period
  {
    AcceptedFacts(facts, events);
    PlayedMatchesSpecs(facts, events);
    RegularRowsArePlayed(facts, events, profile);
    var specs, rows, played := MinuteSpecs(facts, events), Rows(facts, events, profile), PlayedPeriods(facts);
    forall i | 0 <= i < |rows| && rows[i].period != Penalties
      ensures exists p :: p in played && p.period == rows[i].period
    {
      assert rows[i] == Regular(facts, events, profile)[i];
      var j :| 0 <= j < |specs| && specs[j].period == Regular(facts, events, profile)[i].period;
      assert played[j] in played;
    }
  }

  lemma {:induction false} TiledBandsAreOnScreen(facts: Facts, events: seq<Event>, profile: Profile)
    requires ValidateFacts(facts, events).Success?
    requires PeriodsTile(facts, Rows(facts, events, profile))
    ensures PositiveVideo(Regular(facts, events, profile))
  {
    AcceptedFacts(facts, events);
    PlayedMatchesSpecs(facts, events);
    RegularRowsArePlayed(facts, events, profile);
    var specs, rows, regular :=
        MinuteSpecs(facts, events), Rows(facts, events, profile), Regular(facts, events, profile);
    forall i | 0 <= i < |regular| ensures regular[i].videoStart < regular[i].videoEnd {
      var j :| 0 <= j < |specs| && specs[j].period == regular[i].period;
      assert PlayedPeriods(facts)[j] in PlayedPeriods(facts);
      PeriodRowsMembers(rows, regular[i].period);
      assert regular[i] == rows[i];
      assert regular[i] in PeriodRows(rows, regular[i].period);
    }
  }

  lemma {:induction false} VideoIsUniformAlways(facts: Facts, events: seq<Event>, profile: Profile)
    requires ValidateFacts(facts, events).Success?
    ensures VideoIsUniform(Rows(facts, events, profile))
  {
    AcceptedFacts(facts, events);
    VideoBandsAreUniform(MinuteSpecs(facts, events), profile.preMatch, Step(facts, events, profile), profile.halftime);
  }

  // ---- annotations and checkpoints ----

  /** The validator's key lookup agrees with the builder's placement unless a shootout event carries stoppage. */
  lemma {:induction false} LookupAgreesExactly(facts: Facts, events: seq<Event>, profile: Profile, e: Event)
    requires ValidateFacts(facts, events).Success? && e in events
    requires Placement(Rows(facts, events, profile), e).Some?
    ensures EventIndex(Rows(facts, events, profile), e).Some? <==> (e.period == Penalties ==> e.stoppage.None?)
    ensures EventIndex(Rows(facts, events, profile), e).Some? ==>
              EventIndex(Rows(facts, events, profile), e) == Placement(Rows(facts, events, profile), e)
  {
    AcceptedFacts(facts, events);
    var rows := Rows(facts, events, profile);
    if e.period == Penalties {
      assert EventDefect(e).None?;
      assert e.minute.None?;
      RegularRowsArePlayed(facts, events, profile);
      forall i | 0 <= i < |rows| && rows[i].period == Penalties ensures rows[i].stoppage.None? {
      }
      if EventIndex(rows, e).Some? { assert rows[EventIndex(rows, e).value].period == Penalties; }
    }
  }

  predicate NoStoppageInShootout(e: Event) {
    e.period == Penalties ==> e.stoppage.None?
  }

  lemma {:induction false} AnnotationIsMapped(rows: seq<Band>, events: seq<Event>, shown: seq<Annotation>, i: nat)
    requires Replays(shown) && i < |shown| && PlacedFrom(rows, events, shown[i])
    requires EventIndex(rows, shown[i].event).Some? <==> NoStoppageInShootout(shown[i].event)
    requires EventIndex(rows, shown[i].event).Some? ==>
        EventIndex(rows, shown[i].event) == Placement(rows, shown[i].event)
    ensures AnnotationMapped(rows, Normalized(shown)[i]) <==> NoStoppageInShootout(shown[i].event)
    ensures Normalized(shown)[i].event.id == shown[i].event.id
  {
    ShownScoreCountsGoals(shown, i);
  }

  lemma {:induction false} StoppageAmongShown(events: seq<Event>, shown: seq<Annotation>)
    requires forall i :: 0 <= i < |shown| ==> shown[i].event in events
    requires forall e :: e in events ==> exists i :: 0 <= i < |shown| && shown[i].event == e
    ensures (forall i :: 0 <= i < |shown| ==> NoStoppageInShootout(shown[i].event)) <==> ShootoutHasNoStoppage(events)
  {
    forall k | 0 <= k < |events| ensures exists i :: 0 <= i < |shown| && shown[i].event == events[k] {
      assert events[k] in events;
    }
  }

  lemma {:induction false} AnnotationsAreMapped(facts: Facts, events: seq<Event>, profile: Profile, rows: seq<Band>,
                                                shown: seq<Annotation>)
    requires ValidateFacts(facts, events).Success? && rows == Rows(facts, events, profile)
    requires PlaceAll(rows, events, |events|).Success? && shown == DisplayOrder(rows, events)
    requires Replays(shown)
    ensures DistinctAnnotationIds(Normalized(shown))
    ensures AllMapped(rows, Normalized(shown)) <==> ShootoutHasNoStoppage(events)
  {
    assert DistinctIds(events) by { AcceptedFacts(facts, events); }
    DisplayedAnnotations(rows, events);
    forall i | 0 <= i < |shown|
      ensures AnnotationMapped(rows, Normalized(shown)[i]) <==> NoStoppageInShootout(shown[i].event)
      ensures Normalized(shown)[i].event.id == shown[i].event.id
      ensures shown[i].event in events
    {
      assert PlacedFrom(rows, events, shown[i]);
      LookupAgreesExactly(facts, events, profile, shown[i].event);
      AnnotationIsMapped(rows, events, shown, i);
    }
    StoppageAmongShown(events, shown);
  }

  lemma {:induction false} CheckpointsFollowAnnotations(shown: seq<Annotation>, n: nat)
    requires Replays(shown) && n <= |shown|
    ensures Scoreboard(shown, n).Success?
    ensures var cs, scoring := Checkpoints(shown, n), ScoringAnnotations(Normalized(shown), n);
            && |cs| == |scoring| + 1
            && cs[0] == Checkpoint(0, 0, 0, 0)
            && forall k :: 0 <= k < |scoring| ==> CheckpointMatches(cs[k + 1], scoring[k])
  {
    PrefixReplays(shown, n, |shown|);
    if n > 0 {
      CheckpointsFollowAnnotations(shown, n - 1);
    }
  }

  // ---- reactions ----

  lemma {:induction false} PairsMatch(annotations: seq<Annotation>, n: nat, roles: seq<string>,
                                      react: Event --> seq<Reaction>)
    requires n <= |annotations| && Answers(react, annotations)
    requires forall i :: 0 <= i < |annotations| && !annotations[i].event.shootout ==>
               ActualPairs(react(annotations[i].event)) == PairsOf(annotations[i].event.id, roles)
    ensures ActualPairs(Collect(annotations, n, react)) == ExpectedPairs(annotations, n, roles)
  {
    if n > 0 {
      PairsMatch(annotations, n - 1, roles, react);
    }
  }

  lemma {:induction false} AllPairsMatch(rows: seq<Band>, annotations: seq<Annotation>, metrics: seq<Metric>)
    requires AllPlaced(rows, annotations)
    ensures ActualPairs(AllReactions(rows, annotations, metrics))
         == ExpectedPairs(annotations, |annotations|, RoleNames(metrics, |metrics|))
  {
    var react := Reactor(rows, metrics);
    forall i | 0 <= i < |annotations| && !annotations[i].event.shootout
      ensures ActualPairs(react(annotations[i].event))
          == PairsOf(annotations[i].event.id, RoleNames(metrics, |metrics|))
    {
    }
    PairsMatch(annotations, |annotations|, RoleNames(metrics, |metrics|), react);
  }

  lemma {:induction false} ExpectedPairsAreDistinct(annotations: seq<Annotation>, n: nat, roles: seq<string>)
    requires n <= |annotations| && DistinctAnnotationIds(annotations) && NoRepeats(roles)
    ensures NoRepeats(ExpectedPairs(annotations, n, roles))
    ensures forall k :: 0 <= k < |ExpectedPairs(annotations, n, roles)| ==>
              exists i :: 0 <= i < n && ExpectedPairs(annotations, n, roles)[k].0 == annotations[i].event.id
  {
    if n > 0 { ExpectedPairsAreDistinct(annotations, n - 1, roles); }
  }

  ghost predicate IsReactionOf(rows: seq<Band>, e: Event, role: string, metrics: seq<Metric>, r: Reaction) {
    EventIndex(rows, e).Some? && r == ReactionTo(rows, e, metrics)(role)
  }

  /** Each collected reaction answers one annotation. */
  lemma {:induction false} CollectedFrom(annotations: seq<Annotation>, n: nat, react: Event --> seq<Reaction>, k: nat)
    returns (i: nat, j: nat)
    requires n <= |annotations| && Answers(react, annotations) && k < |Collect(annotations, n, react)|
    ensures i < n && !annotations[i].event.shootout
    ensures j < |react(annotations[i].event)| && Collect(annotations, n, react)[k] == react(annotations[i].event)[j]
  {
    var earlier := Collect(annotations, n - 1, react);
    if annotations[n - 1].event.shootout || k < |earlier| {
      i, j := CollectedFrom(annotations, n - 1, react, k);
    } else {
      i, j := n - 1, k - |earlier|;
      assert Collect(annotations, n, react) == earlier + react(annotations[i].event);
    }
  }

  /** Each reaction is one annotation's window seen by one role. */
  lemma {:induction false} ReactionOrigin(rows: seq<Band>, annotations: seq<Annotation>, metrics: seq<Metric>, k: nat)
    returns (i: nat, role: string)
    requires AllPlaced(rows, annotations) && k < |AllReactions(rows, annotations, metrics)|
    ensures i < |annotations| && !annotations[i].event.shootout
    ensures IsReactionOf(rows, annotations[i].event, role, metrics, AllReactions(rows, annotations, metrics)[k])
  {
    var j;
    i, j := CollectedFrom(annotations, |annotations|, Reactor(rows, metrics), k);
    role := RoleNames(metrics, |metrics|)[j];
  }

  /** Tiling rows never start before the first or end after the last. */
  lemma {:induction false} TilesStartLater(rows: seq<Band>, start: int, end: int, k: nat)
    requires RowsTilePeriod(rows, start, end) && k < |rows|
    ensures start <= rows[k].sourceStart
  {
    if k > 0 { TilesStartLater(rows, start, end, k - 1); }
  }

  lemma {:induction false} TilesEndEarlier(rows: seq<Band>, start: int, end: int, k: nat)
    requires RowsTilePeriod(rows, start, end) && k < |rows|
    ensures rows[k].sourceEnd <= end
    decreases |rows| - k
  {
    if k < |rows| - 1 { TilesEndEarlier(rows, start, end, k + 1); }
  }

  lemma {:induction false} RowsStayInside(rows: seq<Band>, period: Period, start: int, end: int)
    requires RowsTilePeriod(PeriodRows(rows, period), start, end)
    ensures forall i :: 0 <= i < |rows| && rows[i].period == period ==>
        start <= rows[i].sourceStart && rows[i].sourceEnd <= end
    ensures exists i :: 0 <= i < |rows| && rows[i].period == period && rows[i].sourceStart == start
    ensures exists i :: 0 <= i < |rows| && rows[i].period == period && rows[i].sourceEnd == end
  {
    var own := PeriodRows(rows, period);
    PeriodRowsMembers(rows, period);
    assert own[0] in own && own[|own| - 1] in own;
    forall i | 0 <= i < |rows| && rows[i].period == period
      ensures start <= rows[i].sourceStart && rows[i].sourceEnd <= end
    {
      assert rows[i] in own;
      var k :| 0 <= k < |own| && own[k] == rows[i];
      TilesStartLater(own, start, end, k);
      TilesEndEarlier(own, start, end, k);
    }
  }

  lemma {:induction false} FirstStartAgrees(rows: seq<Band>, period: Period, start: int)
    requires forall i :: 0 <= i < |rows| && rows[i].period == period ==> start <= rows[i].sourceStart
    requires exists i :: 0 <= i < |rows| && rows[i].period == period && rows[i].sourceStart == start
    ensures PeriodStartMs(rows, period) == Some(CeilMs(start))
  {
    var f :| 0 <= f < |rows| && rows[f].period == period && rows[f].sourceStart == start;
    PeriodStartIsLeast(rows, period, f);
    var i := PeriodStartIsReached(rows, period);
  }

  lemma {:induction false} LastEndAgrees(rows: seq<Band>, period: Period, end: int)
    requires forall i :: 0 <= i < |rows| && rows[i].period == period ==> rows[i].sourceEnd <= end
    requires exists i :: 0 <= i < |rows| && rows[i].period == period && rows[i].sourceEnd == end
    ensures PeriodEndMs(rows, period) == Some(FloorMs(end))
  {
    var l :| 0 <= l < |rows| && rows[l].period == period && rows[l].sourceEnd == end;
    PeriodEndIsGreatest(rows, period, l);
    var i := PeriodEndIsReached(rows, period);
  }

  /** The dictionaries of period bounds hold the period's first start and last end. */
  lemma {:induction false} PeriodBoundsAgree(rows: seq<Band>, period: Period, start: int, end: int)
    requires RowsTilePeriod(PeriodRows(rows, period), start, end)
    ensures PeriodStartMs(rows, period) == Some(CeilMs(start))
    ensures PeriodEndMs(rows, period) == Some(FloorMs(end))
  {
    RowsStayInside(rows, period, start, end);
    FirstStartAgrees(rows, period, start);
    LastEndAgrees(rows, period, end);
  }

  lemma {:induction false} ReactionIsValid(rows: seq<Band>, a: Annotation, role: string, metrics: seq<Metric>,
                                           r: Reaction, start: int, end: int)
    requires IsReactionOf(rows, a.event, role, metrics, r)
    requires RowsTilePeriod(PeriodRows(rows, a.event.period), start, end)
    ensures ReactionValid(rows, a, r)
  {
    PeriodBoundsAgree(rows, a.event.period, start, end);
    var observed, index := RoleRows(metrics, role), EventIndex(rows, a.event).value;
    BeforeKeepsBounds(observed, WindowStart(rows, index), ReactionStart(rows, a.event.period));
    AfterKeepsBounds(observed, WindowEnd(rows, index), FloorMs(end));
    if FollowingEnd(rows, index).Some? {
      AfterKeepsBounds(observed, FollowingEnd(rows, index).value, FloorMs(end));
    }
  }

  lemma {:induction false} ReactionsAreValid(facts: Facts, story: Story)
    requires InventoryMatches(facts, story.bands) && PeriodsTile(facts, story.bands)
    requires DistinctAnnotationIds(story.annotations) && AllPlaced(story.bands, story.annotations)
    requires forall i :: 0 <= i < |story.annotations| && !story.annotations[i].event.shootout ==>
               story.annotations[i].event.period != Penalties
    requires story.reactions == AllReactions(story.bands, story.annotations, story.metrics)
    ensures ReactionsComplete(story)
    ensures ReactionsValid(story)
  {
    var annotations, roles := story.annotations, RoleNames(story.metrics, |story.metrics|);
    AllPairsMatch(story.bands, annotations, story.metrics);
    RoleNamesAreTheRoles(story.metrics, |story.metrics|);
    ExpectedPairsAreDistinct(annotations, |annotations|, roles);
    forall k | 0 <= k < |story.reactions|
      ensures AnnotationIndex(annotations, story.reactions[k].eventId).Some?
      ensures ReactionValid(story.bands, annotations[AnnotationIndex(annotations, story.reactions[k].eventId).value],
          story.reactions[k])
    {
      var i, role := ReactionOrigin(story.bands, annotations, story.metrics, k);
      assert AnnotationIndex(annotations, story.reactions[k].eventId) == Some(i);
      var row := story.bands[EventIndex(story.bands, annotations[i].event).value];
      var p :| p in PlayedPeriods(facts) && p.period == row.period;
      ReactionIsValid(story.bands, annotations[i], role, story.metrics, story.reactions[k], p.start, p.end);
    }
  }

  // ---- the theorem ----

  lemma {:induction false} FitsMeansNoMisfit(facts: Facts, events: seq<Event>)
    requires ValidateFacts(facts, events).Success?
    ensures ValidSpecs(MinuteSpecs(facts, events))
    ensures FirstMisfit(MinuteSpecs(facts, events)).None? <==> AllPeriodsFit(facts, events)
  {
    AcceptedFacts(facts, events);
    AllPeriodsFitExactly(facts, events);
    var specs := MinuteSpecs(facts, events);
    forall j | 0 <= j < |specs| ensures Misfit(specs[j], 0).None? <==> specs[j].Fits() {
      assert ValidSpec(specs[j]);
      PeriodFitsExactly(specs[j]);
    }
  }

  ghost function Candidate(facts: Facts, events: seq<Event>, metrics: seq<Metric>, profile: Profile): Story
    requires ValidateFacts(facts, events).Success?
    requires PlaceAll(Rows(facts, events, profile), events, |events|).Success?
    requires Replays(DisplayOrder(Rows(facts, events, profile), events))
  {
    var rows := Rows(facts, events, profile);
    var shown := DisplayOrder(rows, events);
    AcceptedFacts(facts, events);
    DisplayedNonShootoutIsPlaced(rows, events);
    NormalizingKeepsPlaces(rows, shown);
    Story(rows, Normalized(shown), Checkpoints(shown, |shown|), metrics,
          AllReactions(rows, Normalized(shown), metrics))
  }

  lemma {:induction false} ShownOutsideShootout(events: seq<Event>, rows: seq<Band>, shown: seq<Annotation>)
    requires FirstEventDefect(events).None? && Replays(shown)
    requires forall i :: 0 <= i < |shown| ==> shown[i].event in events
    ensures forall i :: 0 <= i < |shown| && !Normalized(shown)[i].event.shootout ==>
        Normalized(shown)[i].event.period != Penalties
  {
    forall i | 0 <= i < |shown| && !Normalized(shown)[i].event.shootout
      ensures Normalized(shown)[i].event.period != Penalties
    {
      assert EventDefect(shown[i].event).None?;
    }
  }

  lemma {:induction false} CandidateReactions(facts: Facts, events: seq<Event>, story: Story, shown: seq<Annotation>)
    requires FirstEventDefect(events).None? && Replays(shown)
    requires PlaceAll(story.bands, events, |events|).Success? && shown == DisplayOrder(story.bands, events)
    requires story.annotations == Normalized(shown) && DistinctAnnotationIds(story.annotations)
    requires AllPlaced(story.bands, story.annotations)
    requires story.reactions == AllReactions(story.bands, story.annotations, story.metrics)
    requires InventoryMatches(facts, story.bands) && PeriodsTile(facts, story.bands)
    ensures ReactionsComplete(story) && ReactionsValid(story)
  {
    DisplayedAnnotations(story.bands, events);
    forall i | 0 <= i < |shown| ensures shown[i].event in events {
      assert PlacedFrom(story.bands, events, shown[i]);
    }
    ShownOutsideShootout(events, story.bands, shown);
    ReactionsAreValid(facts, story);
  }

  lemma {:induction false} CandidateIsValid(facts: Facts, events: seq<Event>, story: Story, shown: seq<Annotation>)
    requires FirstEventDefect(events).None? && Replays(shown)
    requires PlaceAll(story.bands, events, |events|).Success? && shown == DisplayOrder(story.bands, events)
    requires story.annotations == Normalized(shown) && DistinctAnnotationIds(story.annotations)
    requires AllPlaced(story.bands, story.annotations)
    requires story.checkpoints == Checkpoints(shown, |shown|)
    requires story.reactions == AllReactions(story.bands, story.annotations, story.metrics)
    requires VideoIsUniform(story.bands)
    ensures ValidStory(facts, story)
       <==> InventoryMatches(facts, story.bands) && PeriodsTile(facts, story.bands)
            && AllMapped(story.bands, story.annotations)
  {
    assert CheckpointsMatch(story.annotations, story.checkpoints) by {
      CheckpointsFollowAnnotations(shown, |shown|);
    }
    if InventoryMatches(facts, story.bands) && PeriodsTile(facts, story.bands) {
      CandidateReactions(facts, events, story, shown);
    }
  }

  /**
   Among stories the builder can assemble, the validator refuses exactly those with an empty video band or
   shootout stoppage.
   */
  lemma {:induction false} ValidatorRefusesExactly(facts: Facts, events: seq<Event>, metrics: seq<Metric>,
                                                   profile: Profile)
    requires ValidateFacts(facts, events).Success? && AllPeriodsFit(facts, events)
    requires PlaceAll(Rows(facts, events, profile), events, |events|).Success?
    requires Replays(DisplayOrder(Rows(facts, events, profile), events))
    ensures ValidStory(facts, Candidate(facts, events, metrics, profile))
       <==> ScreenOf(facts, events, profile).MinutesAreVisible() && ShootoutHasNoStoppage(events)
  {
    var story := Candidate(facts, events, metrics, profile);
    var shown := DisplayOrder(story.bands, events);
    AnnotationsAreMapped(facts, events, profile, story.bands, shown);
    VideoIsUniformAlways(facts, events, profile);
    assert FirstEventDefect(events).None? by { AcceptedFacts(facts, events); }
    DisplayedNonShootoutIsPlaced(story.bands, events);
    NormalizingKeepsPlaces(story.bands, shown);
    CandidateIsValid(facts, events, story, shown);
    BandsValidExactly(facts, events, profile);
    VisibleExactly(facts, events, profile);
  }

  lemma {:induction false} BandsValidExactly(facts: Facts, events: seq<Event>, profile: Profile)
    requires ValidateFacts(facts, events).Success? && AllPeriodsFit(facts, events)
    ensures InventoryMatches(facts, Rows(facts, events, profile)) && PeriodsTile(facts, Rows(facts, events, profile))
       <==> PositiveVideo(Regular(facts, events, profile))
  {
    if PositiveVideo(Regular(facts, events, profile)) {
      BandsAreValid(facts, events, profile);
    }
    if PeriodsTile(facts, Rows(facts, events, profile)) {
      TiledBandsAreOnScreen(facts, events, profile);
    }
  }

  /** The score replay succeeds, with the declared result, exactly when the goals in display order step up to it. */
  lemma {:induction false} ReplayNeedsSteps(facts: Facts, events: seq<Event>, profile: Profile)
    requires ValidateFacts(facts, events).Success?
    requires PlaceAll(Rows(facts, events, profile), events, |events|).Success?
    ensures var shown := DisplayOrder(Rows(facts, events, profile), events);
      (Replays(shown) && FinalAgrees(facts, Scoreboard(shown, |shown|).value))
        <==> GoalsStepUp(facts, Sorting.Sort(ScoringOnly(events), ShownOrder(ScreenOf(facts, events, profile))))
  {
    var shown := DisplayOrder(Rows(facts, events, profile), events);
    GoalsAreShownInOrder(facts, events, profile);
    ReplaySucceedsExactly(shown, |shown|);
  }

  /** The builder succeeds exactly when the six conditions hold, whatever the market observations. */
  lemma {:induction false} BuildSucceedsExactly(facts: Facts, events: seq<Event>, metrics: seq<Metric>,
                                                profile: Profile)
    ensures Build(facts, events, metrics, profile).Success? <==> Buildable(facts, events, profile)
    ensures Build(facts, events, metrics, profile).Success? ==>
              ValidStory(facts, Build(facts, events, metrics, profile).value)
  {
    if ValidateFacts(facts, events).Success? {
      AcceptedFacts(facts, events);
      FitsMeansNoMisfit(facts, events);
      if AllPeriodsFit(facts, events) {
        AllPlacedExactly(facts, events, profile);
        var rows := Rows(facts, events, profile);
        if PlaceAll(rows, events, |events|).Success? {
          var shown := DisplayOrder(rows, events);
          ReplayNeedsSteps(facts, events, profile);
          if Replays(shown) { ValidatorRefusesExactly(facts, events, metrics, profile); }
        }
      }
    }
  }

  /**
   From the market as it was recorded: the same, and every observation and trade must carry a timestamp that
   is a date, although only the least and the greatest are looked at.
   */
  lemma {:induction false} BuildFromMarketSucceedsExactly(facts: Facts, events: seq<Event>, metrics: seq<Metric>,
                                                          trades: seq<int>, profile: Profile)
    ensures var r := BuildFromMarket(facts, events, metrics, trades, profile);
      (r.Success? <==> Buildable(facts, events, profile)
                       && (forall i :: 0 <= i < |metrics| ==> IsDate(metrics[i].timestamp))
                       && (forall t :: t in trades ==> IsDate(t)))
      && (r.Success? ==> ValidStory(facts, r.value))
  {
    BuildSucceedsExactly(facts, events, metrics, profile);
    MarketHasDatesExactly(metrics, trades);
  }

  lemma {:induction false} MarketHasDatesExactly(metrics: seq<Metric>, trades: seq<int>)
    ensures MarketHasDates(SourceTimestamps(metrics, trades))
       <==> (forall i :: 0 <= i < |metrics| ==> IsDate(metrics[i].timestamp)) && (forall t :: t in trades ==> IsDate(t))
  {
    var times := SourceTimestamps(metrics, trades);
    if MarketHasDates(times) {
      forall t | t in times ensures IsDate(t) {
        assert Least(times) <= t <= Greatest(times);
      }
      forall i | 0 <= i < |metrics| ensures IsDate(metrics[i].timestamp) {
        assert times[i] == metrics[i].timestamp;
      }
      forall t | t in trades ensures IsDate(t) {
        assert t in times;
      }
    }
    if (forall i :: 0 <= i < |metrics| ==> IsDate(metrics[i].timestamp)) && (forall t :: t in trades ==> IsDate(t)) {
      forall t | t in times ensures IsDate(t) {
        if t !in trades {
          var i :| 0 <= i < |metrics| && times[i] == t;
        }
      }
    }
  }

  /** When nothing earlier stops the builder, its own validator does exactly for the two reasons above. */
  lemma {:induction false} InvalidStoryExactly(facts: Facts, events: seq<Event>, metrics: seq<Metric>, profile: Profile)
    requires ValidateFacts(facts, events).Success? && AllPeriodsFit(facts, events) && AllEventsPlayed(facts, events)
    requires GoalsStepUp(facts, Sorting.Sort(ScoringOnly(events), ShownOrder(ScreenOf(facts, events, profile))))
    ensures Build(facts, events, metrics, profile) == Failure(InvalidStory)
       <==> !(ScreenOf(facts, events, profile).MinutesAreVisible() && ShootoutHasNoStoppage(events))
  {
    AcceptedFacts(facts, events);
    FitsMeansNoMisfit(facts, events);
    AllPlacedExactly(facts, events, profile);
    ReplayNeedsSteps(facts, events, profile);
    ValidatorRefusesExactly(facts, events, metrics, profile);
  }

  /** A match of two plain halves and one shootout kick labelled with a stoppage minute. */
  function LabelledKick(): Event {
    Event("kick", 1, OtherKind, Penalties, None, Some(1), None, None, false, true, true)
  }

  function PlainMatch(): Facts {
    Facts(SANITIZATION, seq(64, i => '0'), 0, 0, 45 * MINUTE, 60 * MINUTE, 105 * MINUTE, None, None, None, None,
        Some(120 * MINUTE), None, None)
  }

  /**
   The builder would place that kick, since it ignores a shootout event's stoppage minute, but its
   validator looks the minute up and refuses the story, whatever the market and the profile.
   */
  lemma {:induction false} LabelledKickIsRefused(metrics: seq<Metric>, profile: Profile)
    ensures ValidateFacts(PlainMatch(), [LabelledKick()]).Success?
    ensures Build(PlainMatch(), [LabelledKick()], metrics, profile) == Failure(InvalidStory)
  {
    var facts, e := PlainMatch(), LabelledKick();
    var events := [e];
    PlainMatchIsAccepted();
    assert ScoringOnly(events) == [] && !ShootoutHasNoStoppage(events);
    InvalidStoryExactly(facts, events, metrics, profile);
  }

  lemma {:induction false} PlainMatchIsAccepted()
    ensures ValidateFacts(PlainMatch(), [LabelledKick()]).Success?
    ensures AllPeriodsFit(PlainMatch(), [LabelledKick()])
  {
  }
}
