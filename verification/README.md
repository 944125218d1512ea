# Football odds pipeline: a verified model

This project models the parts of the pipeline that carry arithmetic, state or a protocol, and proves what
they keep. `dafny verify dfyconfig.toml` checks all of it.

- **Market-portrait story** (`MatchFacts`, `MinuteBands`, `VideoTimeline`, `ScoreReplay`, `Reactions`,
  `StoryValidator`, `PortraitStory`, `ScreenLayout`, `BuilderMeetsValidator`, `StoryMeaning`). The builder cuts periods into
  minute bands, lays them on a video timeline, attaches events, replays the score and finds market reactions
  by bisection; a second function validates the result from scratch. The main theorem is that the builder
  succeeds exactly under conditions on its inputs that can be checked beforehand and that its result is then always valid. Source time is in
  integer microseconds. Video time is exact real seconds, rounded half to even to ticks of 1e-9 s where the
  source rounds.
- **Portrait rows and publication** (`PortraitRows`, `PortraitPublication`). Dropping repeated book states,
  finding the book in force at a trade, and publishing a bundle under a content-addressed path while other
  builders race and any of them may die.
- **Polygon settlement checks** (`DecimalRounding`, `SettlementAudit`). The export's VWAP check,
  which rounds twice, and the audit of a dense proposition-by-minute grid.
- **Settlement seed** (`AdaptiveScan`, `CreatorUpdates`, `UpdatePipeline`). A range-bisecting log scan over a
  provider that may fail or lie at any request, the replay of question updates in the presence of third
  parties, and the two end to end.
- **Rate limiter** (`RateLimiter`), **no-progress guardrail** (`ProgressGuardrail`), **incremental
  build recovery** (`DbtBuild`, `DbtScope`) and **reference ledger** (`ReferenceLedger`): step machines whose theorems
  hold over every run, interrupted anywhere.

Loops and classes of the source are methods and classes here, each proved equal to a specification function
about which the lemmas are then stated. `Wrappers`, `Sorting`, `Counting`, `Functions`,
`Reals` and `Timescale` are shared helpers.

Parameters stand for what lies outside: the RPC provider is a function of the number of requests made, the
clock readings, wake-up times and interruption points are arguments, hashes and encoders are function values
(assumed injective only in lemmas that say so), and the parsing and matching of free text are functions that
may refuse.

## Model

| member | source | states |
|---|---|---|
| BuilderMeetsValidator.BuildFromMarketSucceedsExactly | src/oddsfox_pipeline/publishing/market_portrait_story.py:442-643 | for all facts, events, observations, trades and profiles, the builder returns a story if and only if the observations' and trades' timestamps are dates and the six conditions of `BuildSucceedsExactly` hold, and the story it returns meets every requirement of the independent validator |
| BuilderMeetsValidator.BuildSucceedsExactly | src/oddsfox_pipeline/publishing/market_portrait_story.py:490-643 | past the two dates made from the market's first and last timestamp, the builder returns a story if and only if six conditions on the inputs alone hold (facts and events pass their checks; every period outlasts all its bands but the last; every event outside the shootout has a played minute; every minute, computed from facts and profile, is on screen for a tick; no shootout event carries a stoppage minute; the scoring events, sorted by when their minutes come on screen and by event order, step up by one goal to the declared result), and that story is valid |
| BuilderMeetsValidator.AllPeriodsFitExactly | src/oddsfox_pipeline/publishing/market_portrait_story.py:504-524 | the second of these conditions, stated on boundaries and events alone, is what the builder tests band by band |
| BuilderMeetsValidator.MarketHasDatesExactly | src/oddsfox_pipeline/publishing/market_portrait_story.py:470-489 | looking at the least and the greatest timestamp only is the same as requiring every observation and trade to carry a date |
| BuilderMeetsValidator.InvalidStoryExactly | src/oddsfox_pipeline/publishing/market_portrait_story.py:859-1076 | when nothing earlier stops the builder, its own validator raises if and only if some minute is on screen for less than a tick or a shootout event carries a stoppage minute |
| BuilderMeetsValidator.ValidatorRefusesExactly | src/oddsfox_pipeline/publishing/market_portrait_story.py:885-1076 | of the stories the builder can assemble, exactly those without these two defects are valid; all other validator requirements (tiling, uniformity, keys, scores, checkpoints, reaction inventory and bounds) always hold |
| BuilderMeetsValidator.LabelledKickIsRefused | src/oddsfox_pipeline/publishing/market_portrait_story.py:946-952 | concrete accepted facts and one shootout kick with a stoppage minute that the builder places (it ignores the minute) and its validator refuses, for every market and profile |
| BuilderMeetsValidator.LookupAgreesExactly | src/oddsfox_pipeline/publishing/market_portrait_story.py:946-957 | the validator's lookup by (period, minute, stoppage) finds the row the builder placed an event in if and only if the event is not a shootout event with a stoppage minute |
| BuilderMeetsValidator.PlacementExactly | src/oddsfox_pipeline/publishing/market_portrait_story.py:592-609 | an event outside the shootout finds a row if and only if its period is played and its minute lies in the period or is a positive stoppage minute at its last minute |
| BuilderMeetsValidator.RowComesFromSpec | src/oddsfox_pipeline/publishing/market_portrait_story.py:504-540 | the row at an index is the band of the minute that lies there when the period specifications are laid end to end, with that minute's label and bounds |
| BuilderMeetsValidator.OffsetsAreUnique | src/oddsfox_pipeline/publishing/market_portrait_story.py:504-510 | an index lies in one specification at one offset only, so every row belongs to exactly one |
| BuilderMeetsValidator.ReplayNeedsSteps | src/oddsfox_pipeline/publishing/market_portrait_story.py:406-439 | the score replay of the displayed annotations succeeds with the declared result if and only if the scoring events in display order step up to it |
| BuilderMeetsValidator.PeriodRowsOfSpec | src/oddsfox_pipeline/publishing/market_portrait_story.py:891-925 | filtering the rows by period, as the validator does, gives back that period's own bands in order |
| BuilderMeetsValidator.BandsAreValid | src/oddsfox_pipeline/publishing/market_portrait_story.py:885-925 | the validator's inventory, boundary, one-minute, adjacency, tolerance and positive-video tests hold of every set of rows the builder makes with positive bands |
| BuilderMeetsValidator.BandsValidExactly | src/oddsfox_pipeline/publishing/market_portrait_story.py:885-925 | those tests hold of the builder's rows if and only if every band is on screen |
| BuilderMeetsValidator.VideoIsUniformAlways | src/oddsfox_pipeline/publishing/market_portrait_story.py:926-929 | the 2e-9 uniformity requirement never fails on rows the builder makes |
| BuilderMeetsValidator.AnnotationsAreMapped | src/oddsfox_pipeline/publishing/market_portrait_story.py:940-965 | the validator's per-annotation requirements hold if and only if no shootout event carries a stoppage minute |
| BuilderMeetsValidator.CheckpointsFollowAnnotations | src/oddsfox_pipeline/publishing/market_portrait_story.py:978-994 | checkpoint k carries the order, band end and score of the k-th scoring annotation |
| BuilderMeetsValidator.AllPairsMatch | src/oddsfox_pipeline/publishing/market_portrait_story.py:996-1010 | the reactions' (event, role) pairs are exactly the expected ones, in the expected order |
| BuilderMeetsValidator.ExpectedPairsAreDistinct | src/oddsfox_pipeline/publishing/market_portrait_story.py:1006-1010 | distinct event identifiers and roles give distinct pairs, so the no-duplicate requirement holds |
| BuilderMeetsValidator.PeriodBoundsAgree | src/oddsfox_pipeline/publishing/market_portrait_story.py:766-783 | the builder's dictionaries of greatest end and least start per period equal the last row's end and first row's start that the validator uses |
| BuilderMeetsValidator.ReactionIsValid | src/oddsfox_pipeline/publishing/market_portrait_story.py:1022-1076 | every reaction computed by bisection meets the validator's bounds, before and after requirements |
| PortraitStory.BuildStory | src/oddsfox_pipeline/publishing/market_portrait_story.py:442-643 | the loops that lay out bands, attach events, overwrite scores and compute reactions return exactly what the builder function says, including which error is raised first |
| PortraitStory.PlaceEvents | src/oddsfox_pipeline/publishing/market_portrait_story.py:591-618 | the loop places events in order and fails with the first event that has no row |
| PortraitStory.ShootoutRowIs | src/oddsfox_pipeline/publishing/market_portrait_story.py:556-578 | the shootout's row runs from the last whistle to the end of the match, which is later, and has no minute and no weight |
| PortraitStory.DatesExactly | src/oddsfox_pipeline/publishing/market_portrait_story.py:480-489 | a timestamp can be made a date if and only if its day lies in the years 1 to 9999 of the Gregorian calendar |
| PortraitStory.DisplayedAnnotations | src/oddsfox_pipeline/publishing/market_portrait_story.py:619-625 | sorting for display keeps exactly the placed events, each in a row with its key, with distinct identifiers |
| StoryMeaning.AnnotationsRunInMatchOrder | src/oddsfox_pipeline/publishing/market_portrait_story.py:619-626 | annotations are displayed, and so replayed, in match order if and only if no two events are shown against the order of their minutes; every visible video whose second half follows the first guarantees it |
| StoryMeaning.RowsInTurnExactly | src/oddsfox_pipeline/publishing/market_portrait_story.py:504-578 | rows, the shootout's included, come on screen in match order if and only if the second half's first minute starts after the first half's last one does, in ticks computed from facts and profile |
| StoryMeaning.RowsAreApartExactly | src/oddsfox_pipeline/publishing/market_portrait_story.py:504-578 | no row starts before an earlier one has ended if and only if the second half's first minute does not start before the first half's last one ends |
| StoryMeaning.BuildFollowsTheMatch | src/oddsfox_pipeline/publishing/market_portrait_story.py:442-643 | when the second half follows the first, success depends on the goals' scores in match order (minute, then event order) and on nothing else about the video |
| StoryMeaning.GoalsFollowTheMatch | src/oddsfox_pipeline/publishing/market_portrait_story.py:619-626 | sorting the scoring events by screen position or by place in the match is then the same |
| StoryMeaning.SecondHalfMayComeFirst | src/oddsfox_pipeline/publishing/market_portrait_story.py:541-553 | concrete accepted facts, two goals and a halftime insert of minus ten seconds that build a story showing the 46th minute's goal before the 45th minute's |
| StoryMeaning.BuiltScoresCountGoals | src/oddsfox_pipeline/publishing/market_portrait_story.py:395-439 | in every built story each annotation's home plus away counts the goals up to and including it, checkpoint k sums to k, and the last checkpoint is the declared result |
| StoryMeaning.ReactionsAreExact | src/oddsfox_pipeline/publishing/market_portrait_story.py:785-836 | in exact microseconds, `before` exists if and only if the role was observed strictly before the band and not before the period (any time before, in the first half), primary `after` if and only if between the band's end and the period's, extended `after` if and only if the period has a following band and the role was observed between that band's end and the period's; each is the nearest such observation and both windows share `before` |
| StoryMeaning.BuiltReactionsAreExact | src/oddsfox_pipeline/publishing/market_portrait_story.py:628-643 | every reaction of a built story answers one annotation outside the shootout and is exact in that sense for the actual boundaries of its played period |
| StoryMeaning.LastBandNeedsExactInstant | src/oddsfox_pipeline/publishing/market_portrait_story.py:743-752 | a period's last band has an `after` if and only if the role was observed exactly at the period's end, to the microsecond |
| StoryMeaning.BeforeInExactTime | src/oddsfox_pipeline/publishing/market_portrait_story.py:732-741 | the rounded-millisecond test of `before` decides the exact-time question |
| StoryMeaning.AfterInExactTime | src/oddsfox_pipeline/publishing/market_portrait_story.py:743-752 | the rounded-millisecond test of `after` decides the exact-time question, under mixed ceiling and floor |
| MinuteBands.AcceptedPeriodsAreInOrder | src/oddsfox_pipeline/publishing/market_portrait_story.py:141-219 | accepted facts have complete, non-empty periods in order and apart |
| MatchFacts.FactsAcceptedExactly | src/oddsfox_pipeline/publishing/market_portrait_story.py:259-270 | facts and events pass the gate if and only if the sanitation and provenance marks are right, every boundary lies within its plausibility limits, and the events are in order, distinct, scored in pairs and placed in or out of the shootout |
| MatchFacts.PeriodsAcceptedExactly | src/oddsfox_pipeline/publishing/market_portrait_story.py:141-219 | the period checks accept if and only if kickoff, durations, halftime, breaks and the end of the match each lie within their limits, written boundary by boundary |
| MatchFacts.PeriodErrorsExactly | src/oddsfox_pipeline/publishing/market_portrait_story.py:141-200 | which error is raised first: kickoff, then missing or empty periods, then overlap, then durations |
| MinuteBands.StoppageIsLeast | src/oddsfox_pipeline/publishing/market_portrait_story.py:262-297 | a period's stoppage is the least n such that no event at its last minute carries more than n and, with n extra bands, the last one is at most a minute and a millisecond |
| MinuteBands.SpecFitsExactly | src/oddsfox_pipeline/publishing/market_portrait_story.py:504-524 | a period's bands fit if and only if its span exceeds its nominal minutes but one, and as many more as each stoppage minute its events carry at its last minute |
| VideoTimeline.FirstMisfitExactly | src/oddsfox_pipeline/publishing/market_portrait_story.py:504-528 | the builder stops at the first band without source time, in the first period that has one |
| MinuteBands.SpecsArePlayed | src/oddsfox_pipeline/publishing/market_portrait_story.py:299-358 | each specification is a played period with its first and last minute and its boundaries |
| MinuteBands.PlayedHasSpec | src/oddsfox_pipeline/publishing/market_portrait_story.py:299-358 | every played period has a specification |
| MinuteBands.PeriodFitsExactly | src/oddsfox_pipeline/publishing/market_portrait_story.py:504-524 | the builder accepts a period's bands if and only if its span exceeds n - 1 minutes, and then, whether stoppage is explicit or inferred, they tile [start, end]: one minute each but the last, which lies in (0, 60,001,000] microseconds |
| MinuteBands.InferredStoppageIsLeast | src/oddsfox_pipeline/publishing/market_portrait_story.py:290-297 | the inferred stoppage is the least number of extra bands for which the last one meets the one-millisecond tolerance |
| MinuteBands.InferenceNeverOverflows | src/oddsfox_pipeline/publishing/market_portrait_story.py:290-297 | with inferred stoppage only, the bands fit if and only if the period is less than a full minute short of nominal |
| MinuteBands.LabelIsUnique | src/oddsfox_pipeline/publishing/market_portrait_story.py:504-510 | a minute label sits at one offset of its period and no other |
| MinuteBands.EventHasBandExactly | src/oddsfox_pipeline/publishing/market_portrait_story.py:592-609 | a band with an event's label exists in the specifications if and only if the event's minute was played |
| MinuteBands.OrderedPeriodsGiveValidSpecs | src/oddsfox_pipeline/publishing/market_portrait_story.py:299-358 | accepted facts give well-formed specifications with no period twice |
| ScreenLayout.RowsAreOnScreen | src/oddsfox_pipeline/publishing/market_portrait_story.py:503-578 | row i of a build, the shootout's included, has the video bounds computed for slot i from facts and profile alone |
| ScreenLayout.TimeIsLinear | src/oddsfox_pipeline/publishing/market_portrait_story.py:503-553 | slot i begins at pre-match + i * step, plus the halftime insert from the second half on |
| ScreenLayout.PlacementIsSlot | src/oddsfox_pipeline/publishing/market_portrait_story.py:592-609 | the row an event is shown in is the one its minute and stoppage minute give by counting, for every event |
| ScreenLayout.VisibleExactly | src/oddsfox_pipeline/publishing/market_portrait_story.py:921-925 | the video-duration test of the rows is the same test on computed slots |
| ScreenLayout.VisibilityNeedsWidth | src/oddsfox_pipeline/publishing/market_portrait_story.py:921-925 | if every minute is on screen, the first half's n minutes last at least n - 1 ticks together: narrower profiles always fail |
| ScreenLayout.WideMinutesAreVisible | src/oddsfox_pipeline/publishing/market_portrait_story.py:921-925 | a step of more than one tick puts every minute on screen |
| ScreenLayout.GoalsAreShownInOrder | src/oddsfox_pipeline/publishing/market_portrait_story.py:619-626 | the scoring annotations, in display order, are the scoring events sorted by screen position and event order |
| ScreenLayout.ShownIsStrict | src/oddsfox_pipeline/publishing/market_portrait_story.py:619-625 | displayed annotations are in the strict order of computed screen positions and event order |
| ScreenLayout.ReportedSegmentsAreRows | src/oddsfox_pipeline/publishing/market_portrait_story.py:629-636 | the reported football and shootout segments are the built rows, bound for bound |
| VideoTimeline.TimelineIsConserved | src/oddsfox_pipeline/publishing/market_portrait_story.py:457-590 | before rounding, pre-match, bands, halftime, shootout and post-match tile [0, duration] with no gap or overlap, for every profile |
| VideoTimeline.ReportedTimelineMeets | src/oddsfox_pipeline/publishing/market_portrait_story.py:490-590 | any segments that open with a pre-match segment and meet exactly still meet once reported if and only if the opening is a whole number of ticks |
| VideoTimeline.ReportedSegmentsMeetExactly | src/oddsfox_pipeline/publishing/market_portrait_story.py:490-590 | the builder's own segments, as reported, meet from 0 to the end if and only if the pre-match length is a whole number of ticks |
| VideoTimeline.PeriodSegmentsDrawRows | src/oddsfox_pipeline/publishing/market_portrait_story.py:525-553 | the football segments have the video bounds of the minute rows, period by period |
| VideoTimeline.RoundingKeepsChains | src/oddsfox_pipeline/publishing/market_portrait_story.py:536-550 | rounding each cursor once keeps segments that met exactly meeting |
| VideoTimeline.SegmentsRunForward | src/oddsfox_pipeline/publishing/market_portrait_story.py:504-553 | no football or halftime segment runs backwards if and only if neither the step nor the halftime insert is negative |
| VideoTimeline.CursorMeetsTheEnd | src/oddsfox_pipeline/publishing/market_portrait_story.py:457-469 | the last band ends exactly where the shootout and closing segments are due to begin |
| VideoTimeline.VideoBandsAreUniform | src/oddsfox_pipeline/publishing/market_portrait_story.py:926-929 | any two rounded band lengths differ by at most two ticks of 1e-9 s, for every profile |
| VideoTimeline.UniformWithinTwoTicks | src/oddsfox_pipeline/publishing/market_portrait_story.py:536-537 | two equal stretches rounded half-even at both ends differ by at most two ticks |
| VideoTimeline.TwoTicksAreReached | src/oddsfox_pipeline/publishing/market_portrait_story.py:536-537 | the two-tick bound is attained, so 2e-9 is tight |
| VideoTimeline.DurationExactly | src/oddsfox_pipeline/publishing/market_portrait_story.py:361-374 | the video lasts as the profile says, plus 15 seconds for extra time, the shootout's seconds for a shootout, at most 20 seconds more when there is one |
| VideoTimeline.HalfEvenIsNearest | src/oddsfox_pipeline/publishing/market_portrait_story.py:532-533 | rounding goes to a nearest tick, and from the middle to the even one |
| VideoTimeline.TicksAreNanoseconds | src/oddsfox_pipeline/publishing/market_portrait_story.py:532-533 | a rounded cursor is within half a billionth of a second of the exact one |
| VideoTimeline.WideStepsGivePositiveVideo | src/oddsfox_pipeline/publishing/market_portrait_story.py:921-925 | a step of more than one tick puts every band on screen |
| VideoTimeline.WideStepsAlwaysAppear | src/oddsfox_pipeline/publishing/market_portrait_story.py:921-925 | a step appears wherever it begins if and only if it is more than one tick |
| VideoTimeline.PositiveVideoNeedsPositiveStep | src/oddsfox_pipeline/publishing/market_portrait_story.py:921-925 | a step that is not positive leaves a band empty |
| VideoTimeline.RowsAdvance | src/oddsfox_pipeline/publishing/market_portrait_story.py:512-537 | with a step and an insert that are not negative, no row starts on the video before an earlier one has ended |
| VideoTimeline.RowIsOneStep | src/oddsfox_pipeline/publishing/market_portrait_story.py:512-537 | every row spans one step of the cursor, rounded, at some position after the start |
| VideoTimeline.BuildPeriodRows | src/oddsfox_pipeline/publishing/market_portrait_story.py:510-540 | the inner loop yields the period's bands and advanced cursor, or the first offset whose band has no source duration |
| VideoTimeline.BuildMinuteRows | src/oddsfox_pipeline/publishing/market_portrait_story.py:504-553 | the outer loop yields all rows and the final cursor, or the first band refused |
| ScoreReplay.NormalizeScores | src/oddsfox_pipeline/publishing/market_portrait_story.py:395-439 | the loop that overwrites scores and collects checkpoints computes the replay, with its three errors |
| ScoreReplay.GoalsAreConserved | src/oddsfox_pipeline/publishing/market_portrait_story.py:406-431 | the replayed total equals the number of scoring events so far, and neither side is negative |
| ScoreReplay.ShownScoreCountsGoals | src/oddsfox_pipeline/publishing/market_portrait_story.py:431 | a shown score counts the goals up to and including its annotation, and nothing else in the annotation changes |
| ScoreReplay.ScoresNeverFall | src/oddsfox_pipeline/publishing/market_portrait_story.py:416-431 | both teams' scores are monotone in display order |
| ScoreReplay.CheckpointsCountGoals | src/oddsfox_pipeline/publishing/market_portrait_story.py:398-430 | one checkpoint per goal after 0-0; the k-th holds k goals; the last is the score reached |
| ScoreReplay.ReplaySucceedsExactly | src/oddsfox_pipeline/publishing/market_portrait_story.py:407-431 | the loop over annotations raises nothing if and only if the scoring events' supplied scores step by exactly one goal, and depends on nothing else |
| ScoreReplay.ReplayExactly | src/oddsfox_pipeline/publishing/market_portrait_story.py:395-439 | the whole replay, the declared result included, succeeds if and only if they step by one goal and end at the declared result |
| ScoreReplay.ScoringExactly | src/oddsfox_pipeline/publishing/market_portrait_story.py:386-393 | own goals and scored penalties count like goals, and nothing revoked, of another kind or of a shootout does |
| Reactions.MarketReactions | src/oddsfox_pipeline/publishing/market_portrait_story.py:716-836 | the nested loops with their bisections compute, per annotation and role in order, the specified reactions |
| Reactions.BisectLeft | src/oddsfox_pipeline/publishing/market_portrait_story.py:738-750 | on ascending timestamps the halving search finds the number of timestamps below the boundary |
| Reactions.BeforeIsLatest | src/oddsfox_pipeline/publishing/market_portrait_story.py:732-741 | `before` is the role's greatest (timestamp, sequence) strictly before the boundary, and absent exactly when there is none or it precedes the period |
| Reactions.AfterIsEarliest | src/oddsfox_pipeline/publishing/market_portrait_story.py:743-752 | `after` is the role's least (timestamp, sequence) at or after the boundary, and absent exactly when there is none or it passes the period |
| Reactions.MillisecondsCompareExactly | src/oddsfox_pipeline/publishing/market_portrait_story.py:850-856 | ceiling and floor to milliseconds decide the exact microsecond comparisons |
| Reactions.ProjectionKeepsFigures | src/oddsfox_pipeline/publishing/market_portrait_story.py:720-741 | a quoted observation is the metric's, figure by figure |
| Reactions.NamesCompareLexically | src/oddsfox_pipeline/publishing/market_portrait_story.py:810 | role names are compared at the first character in which they differ, and a name comes before its continuations |
| Reactions.GroupByRole | src/oddsfox_pipeline/publishing/market_portrait_story.py:754-756 | the dictionary of observations by role holds each role's observations in arrival order |
| Reactions.SortGroups | src/oddsfox_pipeline/publishing/market_portrait_story.py:757-760 | each role's list ends up sorted by (timestamp, sequence) and no role is lost |
| Reactions.RoleNamesAreTheRoles | src/oddsfox_pipeline/publishing/market_portrait_story.py:810 | the sorted role names are exactly the observed roles, in ascending order without repeats |
| Reactions.KeyIndexFindsKeys | src/oddsfox_pipeline/publishing/market_portrait_story.py:761-765 | the dictionary of rows by key finds a row with the key whenever one exists |
| PortraitRows.FetchBooks | src/oddsfox_pipeline/publishing/market_portrait_export.py:107-134 | the loop with its `seen` set keeps the first row of each (token, timestamp, hash) and numbers the rows kept |
| PortraitRows.BooksAreFirstRows | src/oddsfox_pipeline/publishing/market_portrait_export.py:109-116 | states are numbered from 0, are first rows of their keys, and no key is lost |
| PortraitRows.BooksAreDistinct | src/oddsfox_pipeline/publishing/market_portrait_export.py:109-113 | each key occurs once among the states |
| PortraitRows.BooksStayAscending | src/oddsfox_pipeline/publishing/market_portrait_export.py:100-116 | dropping repeats keeps the query's time order, which the trade bisection needs |
| PortraitRows.FetchTrades | src/oddsfox_pipeline/publishing/market_portrait_export.py:178-221 | each trade's side is judged against the last book of its role not later than it; the loop raises if and only if some trade's role has no book |
| PortraitRows.SidesExactly | src/oddsfox_pipeline/publishing/market_portrait_export.py:209-219 | a trade is a buy if and only if its book shows an ask at or below its price, and else a sell if and only if it shows a bid at or above it |
| PortraitRows.KeysAreStates | src/oddsfox_pipeline/publishing/market_portrait_export.py:108-112 | two rows repeat one state if and only if token, time and content hash are the same |
| PortraitRows.BisectionFindsLatest | src/oddsfox_pipeline/publishing/market_portrait_export.py:204-208 | the book before the right bisection point is the one a linear scan finds |
| PortraitRows.BisectRight | src/oddsfox_pipeline/publishing/market_portrait_export.py:206 | the halving search counts the timestamps not later than the trade |
| DecimalRounding.RoundedTwiceIsExact | src/oddsfox_pipeline/publishing/polygon_settlement_export.py:581-586 | for all volumes of up to `width` digits, dividing at `precision` >= 2 width + places significant digits and then quantizing half-even equals one exact half-even rounding |
| DecimalRounding.DoubleRoundingIsHarmless | src/oddsfox_pipeline/publishing/polygon_settlement_export.py:581-586 | rounding first to a grid finer than the denominator and then half-even never changes the result, for all integers |
| DecimalRounding.CoarseRoundingIsNotHarmless | src/oddsfox_pipeline/publishing/polygon_settlement_export.py:581-586 | a coarser first grid can: a concrete value where two roundings differ from one |
| DecimalRounding.ExportFormatIsSufficient | src/oddsfox_pipeline/publishing/polygon_settlement_export.py:545-586 | DECIMAL(38, 6) volumes, 18 places and precision 100 meet the sufficient condition |
| DecimalRounding.VwapIsTheRounding | src/oddsfox_pipeline/publishing/polygon_settlement_export.py:578-591 | the expected VWAP is the one and only half-even rounding of collateral / share |
| DecimalRounding.SideAcceptedExactly | src/oddsfox_pipeline/publishing/polygon_settlement_export.py:569-600 | a row side is accepted if and only if, when it has shares, its VWAP is there and is the half-even rounding of the two cells' quotient, by their digits and decimal places, and a single fill's five price cells are there and equal |
| DecimalRounding.ExportSideAcceptedExactly | src/oddsfox_pipeline/publishing/polygon_settlement_export.py:557-600 | the same for the export's own columns: volumes of at most 32 and 6 digits, prices of 18 places |
| DecimalRounding.RefusalsExactly | src/oddsfox_pipeline/publishing/polygon_settlement_export.py:577-600 | which error a side is refused with: an empty VWAP or a wrong one first, then an empty price, then prices that differ |
| DecimalRounding.DigitsAppend | src/oddsfox_pipeline/publishing/polygon_settlement_export.py:578-579 | a cell's digits are read in positional notation |
| DecimalRounding.UnitsAreTheDigits | src/oddsfox_pipeline/publishing/polygon_settlement_export.py:578-579 | a volume is its digits over as many tens as it has decimal places |
| DecimalRounding.TrailingZero | src/oddsfox_pipeline/publishing/polygon_settlement_export.py:578-579 | a zero after the last decimal place changes no volume |
| DecimalRounding.AcceptedSideIsAProbability | src/oddsfox_pipeline/publishing/polygon_settlement_export.py:583-600 | 0 <= collateral <= share forces an accepted VWAP, and a single fill's bar, into [0, 1] |
| DecimalRounding.HalfEvenExactly | src/oddsfox_pipeline/publishing/polygon_settlement_export.py:583-586 | the computed rounding is the only integer that is nearest with ties to even |
| DecimalRounding.Units | src/oddsfox_pipeline/publishing/polygon_settlement_export.py:555-566 | a cell that passes the size test is a whole number of last places below 10^width |
| SettlementAudit.GridAcceptedExactly | src/oddsfox_pipeline/publishing/polygon_settlement.py:568-594 | the row scan and axis test accept if and only if every row matches its market and rows and (proposition, minute) cells correspond one to one |
| SettlementAudit.AcceptedReleaseIsTheGrid | src/oddsfox_pipeline/publishing/polygon_settlement.py:618-632 | an accepted release fills every cell once and has exactly 216 group and 32 knockout markets, a split no check states |
| SettlementAudit.StatusExactly | src/oddsfox_pipeline/publishing/polygon_settlement.py:541-556 | each minute status holds if and only if exactly its sides were observed |
| SettlementAudit.SideValidExactly | src/oddsfox_pipeline/publishing/polygon_settlement.py:648-704 | an observed side is valid if and only if its counts, volumes and times are its minute's and its five prices lie between its low and its high, which are probabilities; an unobserved one if and only if it is empty |
| SettlementAudit.InventoryExactly | src/oddsfox_pipeline/publishing/polygon_settlement.py:455-500 | an accepted inventory has 248 markets of 104 matches with distinct propositions and tokens, and the stated number of each kind |
| SettlementAudit.AxisTestsAgree | src/oddsfox_pipeline/publishing/polygon_settlement_export.py:837-846 | count = distinct count = n with minimum 0 and maximum n - 1 holds if and only if the minutes are {0..n-1} with no repeat, for every n |
| SettlementAudit.ExportAcceptsAuditedAxes | src/oddsfox_pipeline/publishing/polygon_settlement_export.py:837-846 | whatever the audit accepts, the export's counting query accepts for every proposition |
| SettlementAudit.MartScan.ValidateRow | src/oddsfox_pipeline/publishing/polygon_settlement.py:494-565 | one row is accepted if and only if its proposition is known, it matches its market and its grain is new; then grain and axis grow by exactly that row, otherwise one failure is appended |
| SettlementAudit.ScanRows | src/oddsfox_pipeline/publishing/polygon_settlement.py:579-588 | the scan goes through if and only if all rows are good and no grain repeats; otherwise a failure is recorded |
| SettlementAudit.CheckAxes | src/oddsfox_pipeline/publishing/polygon_settlement.py:589-594 | the loop accepts if and only if every proposition's axis is its whole range |
| SettlementAudit.ValidateMart | src/oddsfox_pipeline/publishing/polygon_settlement.py:568-594 | no failure if and only if the row count, the rows, the grain and every axis are right |
| SettlementAudit.ValidateInventory | src/oddsfox_pipeline/publishing/polygon_settlement.py:456-491 | no failure if and only if the sidecar inventory is the expected one |
| SettlementAudit.ValidateRows | src/oddsfox_pipeline/publishing/polygon_settlement.py:618-632 | no failure if and only if inventory, mart and quality row are all acceptable |
| SettlementAudit.TotalIsTheSplit | src/oddsfox_pipeline/publishing/polygon_settlement.py:447-453 | the minutes expected in all are 150 per group market and 210 per knockout market |
| SettlementAudit.RowsCountCells | src/oddsfox_pipeline/publishing/polygon_settlement.py:573-594 | rows that fill the grid once are as many as the minutes expected in all |
| SettlementAudit.DistinctFromCount | src/oddsfox_pipeline/publishing/polygon_settlement.py:466-468 | as many distinct identifiers as rows means no two rows share one |
| AdaptiveScan.ScanIsSound | scripts/generate_polymarket_wc2026_polygon_settlement_seed.py:562-572 | against any provider, a scan that raises nothing delivers logs strictly increasing by (block, transaction, log), in range, allowed by the filter and with the kept header's hash |
| AdaptiveScan.OneHashPerBlock | scripts/generate_polymarket_wc2026_polygon_settlement_seed.py:544-548 | all delivered logs of one block carry one block hash, however the provider changes its mind |
| AdaptiveScan.ScanIsComplete | scripts/generate_polymarket_wc2026_polygon_settlement_seed.py:562-611 | if each request fails or returns its range's logs, a scan that raises nothing returns exactly the chain's logs of the range in chain order |
| AdaptiveScan.ScanRaisesExactly | scripts/generate_polymarket_wc2026_polygon_settlement_seed.py:592-611 | a scan raises if and only if a request for a single block failed, at that request; otherwise the successful requests tile the range without gap or overlap |
| AdaptiveScan.AdaptiveCost | scripts/generate_polymarket_wc2026_polygon_settlement_seed.py:592-611 | n blocks cost at most 2n - 1 requests for logs, and a success costs 2s - 1, s the ranges kept |
| AdaptiveScan.ScanCost | scripts/generate_polymarket_wc2026_polygon_settlement_seed.py:562-572 | a whole scan makes at most two requests for logs per block |
| AdaptiveScan.ScanRequests | scripts/generate_polymarket_wc2026_polygon_settlement_seed.py:544-572 | requests for logs and for headers together, a whole scan makes at most five per block |
| AdaptiveScan.RequestsFitChunk | scripts/generate_polymarket_wc2026_polygon_settlement_seed.py:562-576 | no request of a scan asks for more than 30,000 blocks |
| AdaptiveScan.ScanFollowsTheChain | scripts/generate_polymarket_wc2026_polygon_settlement_seed.py:457-479 | a scan delivers logs by block, then transaction, then place in it, none twice |
| AdaptiveScan.LongerFilterAllows | scripts/generate_polymarket_wc2026_polygon_settlement_seed.py:429-442 | each further filter entry asks for one topic more, and for one of its alternatives if it has any |
| AdaptiveScan.AllowedStaysAllowed | scripts/generate_polymarket_wc2026_polygon_settlement_seed.py:429-442 | further topics never make a row fail a filter |
| AdaptiveScan.CanonicalExactly | scripts/generate_polymarket_wc2026_polygon_settlement_seed.py:491-545 | a row has canonical fields if and only if it is how a log with topics, in the range, is sent |
| AdaptiveScan.ScanSucceeds | scripts/generate_polymarket_wc2026_polygon_settlement_seed.py:592-611 | if requests for one block always work, the scan succeeds however larger ranges fail |
| AdaptiveScan.AdaptiveIsSound | scripts/generate_polymarket_wc2026_polygon_settlement_seed.py:592-611 | the bisection keeps soundness for every range and provider |
| AdaptiveScan.AdaptiveIsComplete | scripts/generate_polymarket_wc2026_polygon_settlement_seed.py:592-611 | the bisection keeps completeness for every range |
| AdaptiveScan.LogsAreSound | scripts/generate_polymarket_wc2026_polygon_settlement_seed.py:445-480 | one verified request delivers exactly the rows sent, canonical, in order and without repeated locators |
| AdaptiveScan.CanonicalRows | scripts/generate_polymarket_wc2026_polygon_settlement_seed.py:495-560 | checked rows are the rows sent, in range, with the hash of the header kept for their block |
| AdaptiveScan.DistinctLocators | scripts/generate_polymarket_wc2026_polygon_settlement_seed.py:470-479 | as many distinct locators as logs, after sorting, means strict order |
| Sorting.OrderedByMembers | scripts/generate_polymarket_wc2026_polygon_settlement_seed.py:463-469 | a strictly ordered list is determined by its members, so the order of delivered logs is forced |
| CreatorUpdates.ApplyCreatorUpdates | scripts/generate_polymarket_wc2026_polygon_settlement_seed.py:813-890 | indexing, sorting and the update loop compute the specified outcome, errors included |
| CreatorUpdates.BuildIndex | scripts/generate_polymarket_wc2026_polygon_settlement_seed.py:823-828 | an index from (adapter, question) to key is built if and only if no identity repeats |
| CreatorUpdates.LastCreatorUpdateWins | scripts/generate_polymarket_wc2026_polygon_settlement_seed.py:849-886 | each question ends with the wording of its last authorized update or unchanged, and its identity fields never change |
| CreatorUpdates.TopicEndsWithAddress | scripts/generate_polymarket_wc2026_polygon_settlement_seed.py:325-328 | an address topic is 24 digits of padding and then the address |
| CreatorUpdates.AuthorizedExactly | scripts/generate_polymarket_wc2026_polygon_settlement_seed.py:851-863 | an update of a selected question counts if and only if the last 20 bytes of its author topic are the recorded creator |
| CreatorUpdates.LastOwnUpdateWins | scripts/generate_polymarket_wc2026_polygon_settlement_seed.py:847-885 | by those bytes: the creator's last update of a question gives it its reviewed wording and changes nothing else of it |
| CreatorUpdates.ThirdPartiesChangeNothing | scripts/generate_polymarket_wc2026_polygon_settlement_seed.py:860-863 | deleting every unauthorized log leaves the questions and the accepted count as they are |
| CreatorUpdates.OnlyCreatorsMatter | scripts/generate_polymarket_wc2026_polygon_settlement_seed.py:860-886 | two successful runs with the same authorized updates select the same questions |
| CreatorUpdates.EveryUpdateIsCounted | scripts/generate_polymarket_wc2026_polygon_settlement_seed.py:857-890 | accepted plus ignored counts exactly the logs of selected adapter and question pairs |
| CreatorUpdates.RunSucceedsExactly | scripts/generate_polymarket_wc2026_polygon_settlement_seed.py:850-885 | a run succeeds if and only if every log has three topics and every authorized update passes review |
| CreatorUpdates.ThirdPartiesCanAbortExactly | scripts/generate_polymarket_wc2026_polygon_settlement_seed.py:850-863 | over logs the scan has checked, the loop succeeds if and only if the authorized updates alone would and no log at all has other than three topics |
| CreatorUpdates.MalformedLogAborts | scripts/generate_polymarket_wc2026_polygon_settlement_seed.py:850-852 | one log with another number of topics, by anyone, ends every run that would have succeeded |
| CreatorUpdates.UpdatesFollowTheChain | scripts/generate_polymarket_wc2026_polygon_settlement_seed.py:830-846 | the second sort changes nothing: updates are replayed exactly in chain order |
| UpdatePipeline.UpdatesSucceedExactly | scripts/generate_polymarket_wc2026_polygon_settlement_seed.py:813-890 | end to end over raw chain rows, with single blocks and headers answered: index, scan and replay succeed if and only if identities are distinct, the questions can be asked for (unless the range of blocks is empty), and every row of the range, by whomever, is a log of exactly three topics, the update topic and a selected identifier first, that passes review if it is that question's creator's |
| UpdatePipeline.UpdateFilterAllowsExactly | scripts/generate_polymarket_wc2026_polygon_settlement_seed.py:429-442 | the operation's filter lets a row pass if and only if it has at least two topics, the update topic and a selected question's identifier |
| UpdatePipeline.UnusableRowAborts | scripts/generate_polymarket_wc2026_polygon_settlement_seed.py:520-560 | one row in range that fails a check of the scan, such as data that is not whole words, ends the whole operation for every provider, whoever wrote it |
| UpdatePipeline.ScanSucceedsExactly | scripts/generate_polymarket_wc2026_polygon_settlement_seed.py:562-611 | on such a provider a scan succeeds if and only if every row of the range passes the scan's checks, however larger ranges fail |
| UpdatePipeline.ScanCovers | scripts/generate_polymarket_wc2026_polygon_settlement_seed.py:562-611 | a scan that raises nothing has met only rows that pass and delivers exactly those of the range |
| UpdatePipeline.UpdateFilterIsWellFormed | scripts/generate_polymarket_wc2026_polygon_settlement_seed.py:387-405 | the filter the operation asks with is accepted if and only if some question is selected and every identifier is a 32-byte word |
| UpdatePipeline.UpdatesAreBlind | scripts/generate_polymarket_wc2026_polygon_settlement_seed.py:813-890 | end to end, two runs that raise nothing, on any two chains through any two truthful providers, select the same questions and accept as many updates if the chains agree on the creators' own updates, whatever anybody else wrote |
| UpdatePipeline.RunCreatorUpdates | scripts/generate_polymarket_wc2026_polygon_settlement_seed.py:813-890 | the operation step by step, index before scan before loop, computes the specified outcome and error |
| RateLimiting.AdmissionBound | src/oddsfox_pipeline/resources/http.py:27-48 | in any interleaving of attempts and rate changes from any state, the sum of 1/rate over the admissions of an interval of length T is at most 1 + T |
| RateLimiting.RequestBound | src/oddsfox_pipeline/resources/http.py:27-48 | while every rate is at most R, at most R(1 + T) requests are admitted in an interval of length T |
| RateLimiting.BoundIsMet | src/oddsfox_pipeline/resources/http.py:27-39 | for every whole R and every T a multiple of 1/R, some run admits exactly R(1 + T) |
| RateLimiting.FillIsRateFree | src/oddsfox_pipeline/resources/http.py:33-48 | the fill fraction gains elapsed time, capped at 1, loses 1/rate per admission and is unchanged by a rate change |
| RateLimiting.AdmitsByFill | src/oddsfox_pipeline/resources/http.py:33-36 | an attempt is admitted if and only if the refilled fraction covers 1/rate |
| RateLimiting.AdmissibleExactly | src/oddsfox_pipeline/resources/http.py:33-36 | some later attempt would be admitted if and only if the rate is at least 1 |
| RateLimiting.SlowRateStarves | src/oddsfox_pipeline/resources/http.py:27-39 | while every rate stays below 1, no attempt of any run is ever admitted |
| RateLimiting.SleepIsEnough | src/oddsfox_pipeline/resources/http.py:38-39 | after the sleep a refused caller is told to take, it is admitted if the bucket can hold a token |
| RateLimiting.RateLimiter.Wait | src/oddsfox_pipeline/resources/http.py:27-39 | a lone waiter at rate >= 1 is admitted after at most one sleep, at the time and in the state stated |
| RateLimiting.RateLimiter.TryAcquire | src/oddsfox_pipeline/resources/http.py:30-38 | one pass through the lock: refill, admit or report the sleep, state fully determined |
| RateLimiting.RateLimiter.SetRate | src/oddsfox_pipeline/resources/http.py:41-48 | a rate change keeps the fill fraction and the clock; a rate that is not positive changes nothing |
| RateLimiting.RateLimiter.Create | src/oddsfox_pipeline/resources/http.py:18-25 | construction is refused exactly when the rate is not positive |
| ProgressGuardrails.WarningsFitIdleTime | src/oddsfox_pipeline/resources/progress_guardrails.py:213-221 | in every run the warnings counted since the last progress times the soft limit never exceed the idle time |
| ProgressGuardrails.WarningsAreExact | src/oddsfox_pipeline/resources/progress_guardrails.py:213-221 | with checks at most one soft limit apart, each check leaves exactly floor(idle / soft) warnings counted |
| ProgressGuardrails.RaisesExactly | src/oddsfox_pipeline/resources/progress_guardrails.py:223-262 | a check raises if and only if idle time has reached the hard limit, and with both limits set at least one warning has then been counted since the last progress |
| ProgressGuardrails.MaxIdleIsTheMaximum | src/oddsfox_pipeline/resources/progress_guardrails.py:106-111 | maximum idle is the greatest idle time any progress, check or snapshot has seen |
| ProgressGuardrails.NextWarningIsDue | src/oddsfox_pipeline/resources/progress_guardrails.py:163-167 | the next warning is always due one soft limit after those counted since the last progress |
| ProgressGuardrails.HeartbeatsAreSpaced | src/oddsfox_pipeline/resources/progress_guardrails.py:243-245 | a heartbeat comes at least one interval after every earlier progress line, heartbeat and failure |
| ProgressGuardrails.ReportsExactly | src/oddsfox_pipeline/resources/progress_guardrails.py:206-276 | over every run, from its events alone: a check fails if and only if the hard limit is reached, else warns if and only if one more soft limit has passed than warnings were counted, else beats if and only if an interval has passed since the last line, beat or failure |
| ProgressGuardrails.LogsExactly | src/oddsfox_pipeline/resources/progress_guardrails.py:169-186 | a progress writes a line if and only if it is forced, an interval has passed since the last mark, or a work interval is unlogged |
| ProgressGuardrails.NeverSilentForLong | src/oddsfox_pipeline/resources/progress_guardrails.py:176-186 | after every check and every progress the last line, beat or failure is less than an interval old |
| ProgressGuardrails.UnloggedWorkIsBounded | src/oddsfox_pipeline/resources/progress_guardrails.py:169-186 | after every event less than one work interval of completed work is unlogged |
| ProgressGuardrails.CountedWarningsAreEmittedOrSwallowed | src/oddsfox_pipeline/resources/progress_guardrails.py:247-269 | in every run the warnings counted are those emitted plus the checks that raise although a warning was due |
| ProgressGuardrails.ProgressGuardrail.RecordProgress | src/oddsfox_pipeline/resources/progress_guardrails.py:149-186 | one locked step: new state fully determined, and whether a line is logged |
| ProgressGuardrails.ProgressGuardrail.Check | src/oddsfox_pipeline/resources/progress_guardrails.py:206-276 | one locked step: new state fully determined, and which of raising, warning, heartbeat or silence follows |
| ProgressGuardrails.ProgressGuardrail.Snapshot | src/oddsfox_pipeline/resources/progress_guardrails.py:106-123 | a snapshot reports idle time and updates only the maximum |
| ProgressGuardrails.ProgressGuardrail.Create | src/oddsfox_pipeline/resources/progress_guardrails.py:48-74 | construction is refused exactly for limits that are not positive or a hard limit not above the soft one |
| DbtBuild.TornTablesAreMarked | src/oddsfox_pipeline/orchestration/dbt_build.py:389-416 | over every sequence of builds, full refreshes included, of which none is cut while dbt writes a table that is unmarked by then, a table that may be half-written is marked |
| DbtBuild.SafeThroughoutExactly | src/oddsfox_pipeline/orchestration/dbt_build.py:362-416 | any sequence of builds, each cut anywhere, leaves every half-written table marked after every build if and only if it holds no such cut |
| DbtBuild.BuildIsSafeExactly | src/oddsfox_pipeline/orchestration/dbt_build.py:389-416 | an ordinary build, cut anywhere, keeps the invariant if and only if it is not cut while dbt writes a table that is neither in the marked scope nor marked from before |
| DbtBuild.AnyCutIsSafeExactly | src/oddsfox_pipeline/orchestration/dbt_build.py:389-416 | an ordinary build keeps the invariant wherever it is cut if and only if every table dbt writes is in the marked scope or marked from before |
| DbtBuild.StartsWholeExactly | src/oddsfox_pipeline/orchestration/dbt_build.py:389-413 | no incremental run of a build starts on a half-written table if and only if the half-written tables dbt writes are in the build's scope |
| DbtBuild.NoIncrementalOnTornTables | src/oddsfox_pipeline/orchestration/dbt_build.py:389-413 | that exact condition for every ordinary build in every such sequence |
| DbtBuild.ScopedBuildsAreSafe | src/oddsfox_pipeline/orchestration/dbt_build.py:389-416 | over every sequence of ordinary builds in which dbt writes nothing outside the marked scopes, each cut anywhere, half-written tables are marked after every build, written only when marked, and never built on |
| DbtBuild.BuildIsWatchedExactly | src/oddsfox_pipeline/orchestration/dbt_build.py:389-508 | every prefix of an ordinary build keeps half-written and being-written tables marked and starts on whole ones if and only if dbt writes only tables marked by then, the half-written among them in scope |
| DbtBuild.BuildRuns | src/oddsfox_pipeline/orchestration/dbt_build.py:389-508 | an uncut ordinary build, whatever dbt writes in it, leaves its scope unmarked and whole and every other marker and half-written table as it was |
| DbtBuild.OneBuildRepairs | src/oddsfox_pipeline/orchestration/dbt_build.py:389-508 | so one uncut ordinary build repairs its scope after any such sequence |
| DbtBuild.FullRefreshIsSafeExactly | src/oddsfox_pipeline/orchestration/dbt_build.py:372-416 | a full-refresh build keeps the invariant if and only if it is not cut while dbt writes an unmarked table |
| DbtBuild.UnmarkedTornTableIsBuiltOn | src/oddsfox_pipeline/orchestration/dbt_build.py:121-139 | a half-written table without a marker is built on by every later ordinary build that writes it, and is still half-written and unmarked when that build ends |
| DbtBuild.FullRefreshKeepsMarkers | src/oddsfox_pipeline/orchestration/dbt_build.py:94-95 | a completed full-refresh build makes its tables whole and clears no marker |
| DbtBuild.RebuildsExactlyMarked | src/oddsfox_pipeline/orchestration/dbt_build.py:127-139 | a build rebuilds a model from scratch if and only if it is in scope and marked |
| DbtBuild.Warehouse.Recover | src/oddsfox_pipeline/orchestration/dbt_build.py:121-139 | the recovery loop, cut anywhere, is a prefix of refresh, finish, clear for each marked model in order |
| DbtBuild.Warehouse.Build | src/oddsfox_pipeline/orchestration/dbt_build.py:389-508 | an ordinary build, cut anywhere, performs that prefix of recover, mark, run, clear and then crashes |
| DbtBuild.Warehouse.FullRefresh | src/oddsfox_pipeline/orchestration/dbt_build.py:372-416 | a full-refresh build, cut anywhere, runs dbt and touches no marker |
| DbtScope.RequestIsSafeExactly | src/oddsfox_pipeline/orchestration/dbt_build.py:362-416 | a build request can be cut anywhere without leaving an unmarked half-written table if and only if every table dbt writes for it is in the scope its selection gives it or marked from before |
| DbtScope.ScopeOfWholeRun | src/oddsfox_pipeline/orchestration/assets_polymarket.py:416-448 | a whole run of the main asset protects exactly the soccer tables under the two shipped soccer selections, otherwise the hourly table if its selection mentions it or is empty, otherwise nothing |
| DbtScope.NoWholeRunProtectsAll | src/oddsfox_pipeline/orchestration/dbt_build.py:362-370 | so with no marker set a whole run of that asset in which dbt writes the hourly and a soccer table is unsafe, for every selection |
| DbtScope.DefaultBuildTearsSoccer | src/oddsfox_pipeline/orchestration/config.py:309-319 | the default build, cut while dbt writes, leaves both soccer tables half-written and unmarked; every later ordinary build of one starts on it incrementally and ends with it still half-written and unmarked |
| DbtScope.PlainTagsProtectNothing | src/oddsfox_pipeline/orchestration/dbt_build.py:73-85 | a selection without an underscore, such as one by tags, marks and recovers nothing, whatever dbt selects by it |
| DbtScope.TagSelectionProtectsNothing | tests/unit/orchestration/test_config_validation.py:113-118 | one such selection, which takes in the hourly model |
| DbtScope.HourlyMentionsExactly | src/oddsfox_pipeline/orchestration/dbt_build.py:62-85 | a text mentions the hourly table if and only if it contains one of two short names, which the two long ones contain |
| DbtScope.SoccerMentionsExactly | src/oddsfox_pipeline/orchestration/dbt_build.py:88-117 | a text mentions the soccer tables if and only if it contains one of three names |
| DbtScope.GoldenSelectionProtectsHourly | src/oddsfox_pipeline/orchestration/shipped_scopes.py:22 | the shipped selection of the hourly mart protects the hourly table |
| ReferenceLedger.ActiveIsNewest | src/oddsfox_pipeline/contracts/reference_bundle.py:187-249 | over every sequence of loads, failures and replays, the active tables and the newest ledger entry are those of the last request that loaded |
| ReferenceLedger.EntriesNeverChange | src/oddsfox_pipeline/contracts/reference_bundle.py:236-240 | the ledger only grows: every earlier ledger is a prefix of every later one |
| ReferenceLedger.OnlyFirstLoadsChange | src/oddsfox_pipeline/contracts/reference_bundle.py:209-247 | a request changes the store if and only if it is a first complete load; refusals, failures, changed bundles and replays of any age change nothing |
| ReferenceLedger.LoadedOnceReplaysForever | src/oddsfox_pipeline/contracts/reference_bundle.py:209-217 | a bundle that has loaded once is a replay at every later request with the same record |
| ReferenceLedger.ReplayedTablesAreRecorded | src/oddsfox_pipeline/contracts/reference_bundle.py:214-217 | with a collision-free hash a replayed directory holds exactly the tables loaded under its record |
| ReferenceLedger.SuccessActivatesNewest | src/oddsfox_pipeline/contracts/reference_bundle.py:214-241 | after a load reporting success the given bundle's tables are active if its entry is the newest |
| ReferenceLedger.NewestAfterSuccessExactly | src/oddsfox_pipeline/contracts/reference_bundle.py:209-240 | after a successful load its record is the newest if and only if, before the call, it was not in the ledger or already the newest |
| ReferenceLedger.OlderReplayStaysInactive | src/oddsfox_pipeline/contracts/reference_bundle.py:214-217 | for any two loadable bundles with different identifiers and tables: load, load, replay the first; the replay succeeds and the second stays active |
| ReferenceLedger.ReplayMayStayInactive | src/oddsfox_pipeline/contracts/reference_bundle.py:214-217 | two concrete bundles under a collision-free hash for which that run exists |
| ReferenceLedger.ActiveIsComplete | src/oddsfox_pipeline/contracts/reference_bundle.py:222-235 | whatever is active has every required table, each with its required key unique |
| ReferenceLedger.KeysAgreeExactly | src/oddsfox_pipeline/contracts/reference_bundle.py:226-235 | two rows conflict on a key, however many columns it has, if and only if they agree on every column of it |
| ReferenceLedger.EntryValidExactly | src/oddsfox_pipeline/contracts/reference_bundle.py:135-168 | a table entry is valid if and only if its payload is there under its name, hashes and parses to what the entry says, and is an expected table with its key and schema |
| ReferenceLedger.LedgerIdsAreDistinct | src/oddsfox_pipeline/contracts/reference_bundle.py:202-217 | no bundle identifier is ever recorded twice |
| ReferenceLedger.RecordPinsTables | src/oddsfox_pipeline/contracts/reference_bundle.py:144-146 | accepted directories with the same record hold the same tables |
| ReferenceLedger.InventoryIsComplete | src/oddsfox_pipeline/contracts/reference_bundle.py:169-170 | as many distinct valid tables as are required are all the required ones, so the later inventory test cannot fail |
| ReferenceLedger.ValidateReferenceBundle | src/oddsfox_pipeline/contracts/reference_bundle.py:75-184 | validation accepts if and only if the declarative conditions on header, tables, schemas and checksums hold |
| ReferenceLedger.ValidateTables | src/oddsfox_pipeline/contracts/reference_bundle.py:133-168 | the loop accepts if and only if all entries are valid and distinct, and its sets are then the table and file names |
| ReferenceLedger.ValidateChecksums | src/oddsfox_pipeline/contracts/reference_bundle.py:174-183 | the loop accepts if and only if the lines are well-formed, distinct, cover exactly the expected files and match their hashes |
| ReferenceLedger.Warehouse.Replace | src/oddsfox_pipeline/contracts/reference_bundle.py:219-247 | the transaction commits all tables and the entry, or, if any statement fails or a key repeats, nothing |
| ReferenceLedger.Warehouse.LoadReferenceBundle | src/oddsfox_pipeline/contracts/reference_bundle.py:187-249 | one load: outcome and whole new store determined |
| PortraitPublication.PublicationIsSound | src/oddsfox_pipeline/publishing/market_portrait_export.py:439-467 | over every interleaving of builders, each raising or dying anywhere, published directories are whole bundles and the "different bytes" error is never raised |
| PortraitPublication.AbsentOrComplete | src/oddsfox_pipeline/publishing/market_portrait_export.py:442-463 | a path is absent or holds exactly the four files of the only input that has this path |
| PortraitPublication.BundleHoldsItsInput | src/oddsfox_pipeline/publishing/market_portrait_export.py:380-463 | a published path, named by the hash of the input's identity and payload hashes, holds the manifest and the input's own book, trades and story under their names |
| PortraitPublication.PublishedForever | src/oddsfox_pipeline/publishing/market_portrait_export.py:449-463 | a published directory is never rewritten or removed |
| PortraitPublication.RebuildIsNoop | src/oddsfox_pipeline/publishing/market_portrait_export.py:449-454 | once a bundle is published, every later build of equal inputs reports a no-op and changes no file |
| PortraitPublication.NoopsExactly | src/oddsfox_pipeline/publishing/market_portrait_export.py:449-467 | in every interleaving a finished build reports a no-op if and only if it found its path published when it started |
| PortraitPublication.OneRenameWins | src/oddsfox_pipeline/publishing/market_portrait_export.py:463 | of builders racing for one path exactly the first rename takes effect |
| PortraitPublication.OnlyRenamePublishes | src/oddsfox_pipeline/publishing/market_portrait_export.py:458-463 | a path appears only by a rename whose builder had written all four files |
| PortraitPublication.PathDeterminesInput | src/oddsfox_pipeline/publishing/market_portrait_export.py:380-442 | equal paths come from equal inputs, through the file hashes embedded in the manifest |
| PortraitPublication.Store.Publish | src/oddsfox_pipeline/publishing/market_portrait_export.py:439-467 | a build, cut anywhere, performs that prefix of check, four writes and rename |

## Where the code and expectations differ

- A shootout event with a stoppage minute passes the event checks and is placed, and then the finished story
  is refused (`LabelledKickIsRefused`); `docs/reference/market-portrait.md:92-93` says shootout events receive
  annotations and names no such condition.
- A limiter created or set below one request per second holds less than one token and admits nobody
  (`AdmissibleExactly`, `SlowRateStarves`).
- The render profile is never validated. A halftime insert negative enough shows the second half first, and
  the score is then replayed, and accepted or refused, in that order (`SecondHalfMayComeFirst`,
  `RowsInTurnExactly`).
- Creator updates are blind to third parties in their result, but not in whether there is one: a third party's
  row whose data is not whole words ends the scan, and one with other than three topics ends the replay
  (`UnusableRowAborts`, `MalformedLogAborts`, `UpdatesSucceedExactly`).
- Markers are set for what a build's selection mentions, not for what dbt writes. The default build marks the
  hourly table and writes the soccer tables as well; cut while it writes, it leaves those half-written without
  a marker, and later builds extend them (`AnyCutIsSafeExactly`, `NoWholeRunProtectsAll`,
  `DefaultBuildTearsSoccer`).
- `docs/guides/troubleshooting.md:167-170` says the next ordinary build that selects the hourly model recovers
  it; one that selects it by tags does not (`PlainTagsProtectNothing`, `RebuildsExactlyMarked`).
- A full-refresh build neither sets nor clears markers: cut while it writes, it can leave a half-written
  table that the next ordinary build extends (`FullRefreshIsSafeExactly`, `SafeThroughoutExactly`,
  `UnmarkedTornTableIsBuiltOn`).
- `docs/guides/troubleshooting.md:172-173` offers a full refresh as a remedy for an interrupted build; it makes
  the tables whole, but the marker stays set and the next ordinary build refreshes them once more
  (`FullRefreshKeepsMarkers`, `RebuildsExactlyMarked`).
- Replaying an older reference bundle succeeds without making it active again (`ReplayMayStayInactive`,
  `OlderReplayStaysInactive`, `NewestAfterSuccessExactly`).
- A soft warning due at the check that raises is counted but not emitted
  (`CountedWarningsAreEmittedOrSwallowed`).

## Left out

- BuildSucceedsExactly: floating-point error of video seconds is not modelled; cursors are exact reals, rounded where the source rounds, so a step within floating-point error of one tick may behave differently.
- BuildStory: the sorted `segments` list of the story is not part of it (the timeline is proved in playing order), nor are priorities, labels and other fields copied through; the statistics in market metrics are inputs with their timestamps, roles and sequence numbers.
- BuildStory: event types are reduced to whether they are one of the three scoring types (case folding included) and timestamps to integer microseconds, so datetimes without a time zone are not modelled.
- RowsAdvance: is for a step and an insert that are not negative; the exact condition on a visible video is RowsAreApartExactly.
- SideAcceptedExactly: cells are digit sequences or, for prices, empty; parsing and signs of decimal text are not modelled.
- GridAcceptedExactly: values are typed; the rendering of mixed types to text before comparison is not modelled, and an absent group is the empty string.
- ValidateReferenceBundle: the shape tests of the revision, image digest, creation time and source fields are one flag, and a directory does not change between validation and load.
- LogsAreSound: hexadecimal text of rows is already parsed or marked malformed (so the author topics that reach the loop are 32-byte words); case folding is not modelled, so filter values and question identifiers are in lower case.
- RunCreatorUpdates: title parsing, fixture matching and orientation checks are one review function that may refuse.
- ApplyCreatorUpdates: starts from scanned logs (the end-to-end operation is RunCreatorUpdates); title parsing, fixture matching and orientation checks are one review function that may refuse.
- Wait: asks for a rate of at least 1, since below it the loop never ends, and for a clock that does not go back; a waiter among others may be overtaken after its sleep; the one-sleep bound is for a lone waiter, the admission bounds for all interleavings.
- BuildIsSafeExactly: which tables dbt writes for a selection is an argument, and all of them count as being written until dbt ends; an exit code that is absent once the event stream has ended means success.
- ScopeOfWholeRun: lower-casing and blanks are those of ASCII text; asset keys are their text form.
- UpdatesSucceedExactly: assumes that requests for single blocks and for headers are answered and that answers are truthful; UnusableRowAborts needs only the latter.
- AbsentOrComplete: assumes nobody but builders writes under the output root; record counts and other manifest fields are one opaque value.
- The event queue, producer thread, liveness fingerprints and termination of the dbt process in `stream_dbt_build`.
- The raw candidate scan, question discovery and the other log scans of the seed generator, which reuse the scan proved here.
- The CSV header, version, pattern and row-order checks of the sanitized export and its other SQL checks.
- Rounding of guardrail figures for display, and the log lines and callbacks themselves.
- SHA-256, gzip, JSON, Parquet and DuckDB internals, HTTP sessions, asset wiring and command lines.
