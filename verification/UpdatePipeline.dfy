/**
 Creator updates end to end: index the selected questions, scan the chain, replay the updates. The chain is
 a list of rows as the node holds them, which anyone may have put there, so a row may fail a check before
 its author is ever looked at. The results are exactly when the whole operation ends without error, and
 which rows a third party can end it with.
 */
module UpdatePipeline {
  import opened Wrappers
  import opened Counting
  import opened Sorting
  import opened AdaptiveScan
  import opened CreatorUpdates

  const TOPIC_HEAD := "0x0059e11815211969c0"
  const TOPIC_MIDDLE := "c4aaf3f498b52b6c2f2d14"
  const TOPIC_TAIL := "f286275d0862d70de22a836b"
  const ANCILLARY_UPDATED_TOPIC := TOPIC_HEAD + (TOPIC_MIDDLE + TOPIC_TAIL)

  lemma {:induction false} MiddleIsHex()
    ensures |TOPIC_MIDDLE| == 22 && forall i :: 0 <= i < |TOPIC_MIDDLE| ==> IsHexDigit(TOPIC_MIDDLE[i])
  {
  }

  lemma {:induction false} TailIsHex()
    ensures |TOPIC_TAIL| == 24 && forall i :: 0 <= i < |TOPIC_TAIL| ==> IsHexDigit(TOPIC_TAIL[i])
  {
  }

  lemma {:induction false} HexJoins(head: string, rest: string, n: nat)
    requires IsHex(head, n) && forall i :: 0 <= i < |rest| ==> IsHexDigit(rest[i])
    ensures IsHex(head + rest, n + |rest|)
  {
  }

  lemma {:induction false} TopicIsAWord()
    ensures IsHex(ANCILLARY_UPDATED_TOPIC, 64)
  {
    MiddleIsHex();
    TailIsHex();
    assert IsHex(TOPIC_HEAD, 18);
    HexJoins(TOPIC_HEAD, TOPIC_MIDDLE + TOPIC_TAIL, 18);
  }

  /** The scan asks for updates of the selected questions. */
  function UpdateFilter(questions: map<Key, Question>): Filter {
    Filter(None, [Some({ANCILLARY_UPDATED_TOPIC}), Some(set key | key in questions :: questions[key].questionId)])
  }

  /** There are questions to ask for, and their identifiers are 32-byte words. */
  predicate CanBeAsked(questions: map<Key, Question>) {
    questions != map[] && forall key :: key in questions ==> IsHex(questions[key].questionId, 64)
  }

  lemma {:induction false} UpdateFilterIsWellFormed(questions: map<Key, Question>)
    ensures FilterIsWellFormed(UpdateFilter(questions)) <==> CanBeAsked(questions)
  {
    var f, ids := UpdateFilter(questions), set key | key in questions :: questions[key].questionId;
    TopicIsAWord();
    assert ANCILLARY_UPDATED_TOPIC in {ANCILLARY_UPDATED_TOPIC};
    assert f.topics[0] == Some({ANCILLARY_UPDATED_TOPIC}) && f.topics[1] == Some(ids);
    if CanBeAsked(questions) {
      var key :| key in questions;
      assert questions[key].questionId in ids;
    }
    if FilterIsWellFormed(f) {
      assert AreWords(f.topics[1].value);
      forall key | key in questions ensures IsHex(questions[key].questionId, 64) {
        assert questions[key].questionId in ids;
      }
    }
  }

  datatype RunError = ScanRaised | UpdateRaised(error: Error)

  ghost function UpdateAll(p: Provider, first: nat, last: nat, w: World, review: Review, questions: map<Key, Question>)
    : Result<Applied, RunError>
  {
    if !IdentitiesAreDistinct(questions) then Failure(UpdateRaised(DuplicatedIdentity))
    else
      match Scan(p, UpdateFilter(questions), first, last, w).logs
      case None => Failure(ScanRaised)
      case Some(logs) =>
        match Replayed(review, questions, Sort(logs, InOrder))
        case Failure(error) => Failure(UpdateRaised(error))
        case Success(applied) => Success(applied)
  }

  /** The operation as it runs: the index is built before the chain is scanned. */
  method RunCreatorUpdates(p: Provider, first: nat, last: nat, w: World, review: Review, questions: map<Key, Question>)
    returns (r: Result<Applied, RunError>)
    ensures r == UpdateAll(p, first, last, w, review, questions)
  {
    var built := BuildIndex(questions);
    if built.Failure? {
      return Failure(UpdateRaised(built.error));
    }
    var scanned := Scan(p, UpdateFilter(questions), first, last, w).logs;
    if scanned.None? {
      return Failure(ScanRaised);
    }
    var applied := ApplyLogs(built.value, review, questions, Sort(scanned.value, InOrder));
    r := if applied.Failure? then Failure(UpdateRaised(applied.error)) else Success(applied.value);
  }

  // ---- the chain as the node holds it ----

  predicate RowInRange(row: RawLog, first: nat, last: nat) {
    row.block.Some? && first <= row.block.value <= last
  }

  ghost predicate AnswerIsTruthful(p: Provider, raw: seq<RawLog>, n: nat, first: nat, last: nat) {
    p.logs(n, first, last).Rows? ==>
      NoRepeats(p.logs(n, first, last).rows)
      && forall row :: row in p.logs(n, first, last).rows <==> row in raw && RowInRange(row, first, last)
  }

  /** Every request for logs fails or shows exactly the rows of its range, in any order. */
  ghost predicate TruthfulOrFailing(p: Provider, raw: seq<RawLog>) {
    forall n, first, last :: AnswerIsTruthful(p, raw, n, first, last)
  }

  /** The row passes every check of the scan, whichever request it comes with. */
  predicate Usable(f: Filter, row: RawLog) {
    Allows(f, row) && row.block.Some? && FieldsAreCanonical(row, row.block.value, row.block.value)
  }

  // ---- one bad row ends the scan ----

  lemma {:induction false} CheckedRowsAreCanonical(p: Provider, rows: seq<RawLog>, first: nat, last: nat, w: World)
    requires CanonicalAll(p, rows, first, last, w).0.Some?
    ensures forall i :: 0 <= i < |rows| ==> FieldsAreCanonical(rows[i], first, last)
  {
    if rows != [] {
      CheckedRowsAreCanonical(p, rows[1..], first, last, Canonical(p, rows[0], first, last, w).1);
      forall i | 0 <= i < |rows| ensures FieldsAreCanonical(rows[i], first, last) {
        if i > 0 { assert rows[i] == rows[1..][i - 1]; }
      }
    }
  }

  lemma {:induction false} AnsweredRowsAreUsable(p: Provider, f: Filter, first: nat, last: nat, w: World, row: RawLog)
    requires Logs(p, f, first, last, w).0.Some? && row in p.logs(w.clock, first, last).rows
    ensures Usable(f, row)
  {
    var rows := p.logs(w.clock, first, last).rows;
    CheckedRowsAreCanonical(p, rows, first, last, w.(clock := w.clock + 1));
    var i :| 0 <= i < |rows| && rows[i] == row;
    assert Allows(f, rows[i]) && FieldsAreCanonical(rows[i], first, last);
  }

  ghost predicate AllUsable(f: Filter, raw: seq<RawLog>, first: nat, last: nat) {
    forall row :: row in raw && RowInRange(row, first, last) ==> Usable(f, row)
  }

  /** The logs are the chain's rows of the range, checked. */
  ghost predicate Delivers(raw: seq<RawLog>, first: nat, last: nat, logs: seq<Log>) {
    forall log :: log in logs <==> Sent(log) in raw && first <= log.block <= last
  }

  ghost predicate Covered(f: Filter, raw: seq<RawLog>, first: nat, last: nat, logs: seq<Log>) {
    AllUsable(f, raw, first, last) && Delivers(raw, first, last, logs)
  }

  lemma {:induction false} AnsweredRangeIsCovered(p: Provider, f: Filter, first: nat, last: nat, w: World,
                                                  raw: seq<RawLog>)
    requires TruthfulOrFailing(p, raw) && Logs(p, f, first, last, w).0.Some?
    ensures Covered(f, raw, first, last, Logs(p, f, first, last, w).0.value)
  {
    LogsAreSound(p, f, first, last, w);
    assert AnswerIsTruthful(p, raw, w.clock, first, last);
    forall row: RawLog | row in raw ensures RowInRange(row, first, last) ==> Usable(f, row) {
      if RowInRange(row, first, last) { AnsweredRowsAreUsable(p, f, first, last, w, row); }
    }
  }

  /** A range scanned without error has only usable rows, and all of them are delivered. */
  lemma {:induction false} AdaptiveCovers(p: Provider, f: Filter, first: nat, last: nat, w: World, raw: seq<RawLog>)
    requires first <= last && TruthfulOrFailing(p, raw) && Adaptive(p, f, first, last, w).logs.Some?
    ensures Covered(f, raw, first, last, Adaptive(p, f, first, last, w).logs.value)
    decreases last - first
  {
    var (got, after) := Logs(p, f, first, last, w);
    if got.Some? {
      AnsweredRangeIsCovered(p, f, first, last, w, raw);
    } else {
      var middle := (first + last) / 2;
      AdaptiveCovers(p, f, first, middle, after, raw);
      var left := Adaptive(p, f, first, middle, after);
      AdaptiveCovers(p, f, middle + 1, last, left.world, raw);
    }
  }

  ghost predicate RangeCovers(range: RangeScan, f: Filter, raw: seq<RawLog>, first: nat, last: nat, w: World) {
    first <= last && range(first, last, w).logs.Some? ==> Covered(f, raw, first, last, range(first, last, w).logs.value)
  }

  lemma {:induction false} ChunksCover(range: RangeScan, f: Filter, raw: seq<RawLog>, first: nat, last: nat, w: World)
    requires forall a, b, w' :: RangeCovers(range, f, raw, a, b, w')
    requires Chunks(range, first, last, w).logs.Some?
    ensures Covered(f, raw, first, last, Chunks(range, first, last, w).logs.value)
    decreases last + 1 - first
  {
    if first <= last {
      var end := ChunkEnd(first, last);
      assert RangeCovers(range, f, raw, first, end, w);
      var chunk := range(first, end, w);
      ChunksCover(range, f, raw, end + 1, last, chunk.world);
    }
  }

  lemma {:induction false} ScanCovers(p: Provider, f: Filter, first: nat, last: nat, w: World, raw: seq<RawLog>)
    requires TruthfulOrFailing(p, raw) && Scan(p, f, first, last, w).logs.Some?
    ensures Covered(f, raw, first, last, Scan(p, f, first, last, w).logs.value)
  {
    forall a: nat, b: nat, w': World ensures RangeCovers(Ranges(p, f), f, raw, a, b, w') {
      if a <= b && Adaptive(p, f, a, b, w').logs.Some? { AdaptiveCovers(p, f, a, b, w', raw); }
    }
    ChunksCover(Ranges(p, f), f, raw, first, last, w);
  }

  /**
   One row that fails a check of the scan ends the whole operation, whoever wrote it and whatever else is on
   the chain: data that is not whole words, for one.
   */
  lemma {:induction false} UnusableRowAborts(p: Provider, first: nat, last: nat, w: World, raw: seq<RawLog>,
                                             row: RawLog, review: Review, questions: map<Key, Question>)
    requires TruthfulOrFailing(p, raw) && row in raw && RowInRange(row, first, last)
        && !Usable(UpdateFilter(questions), row)
    ensures UpdateAll(p, first, last, w, review, questions).Failure?
  {
    if Scan(p, UpdateFilter(questions), first, last, w).logs.Some? {
      ScanCovers(p, UpdateFilter(questions), first, last, w, raw);
    }
  }

  lemma {:induction false} MalformedFilterRaises(p: Provider, f: Filter, first: nat, last: nat, w: World)
    requires first <= last && !FilterIsWellFormed(f)
    ensures Adaptive(p, f, first, last, w).logs.None?
    decreases last - first
  {
    if first < last { MalformedFilterRaises(p, f, first, (first + last) / 2, Logs(p, f, first, last, w).1); }
  }

  // ---- usable rows and answered blocks are enough ----

  ghost predicate TrueHeaders(w: World, hash: nat -> string) {
    forall b :: b in w.headers ==> w.headers[b] == hash(b)
  }

  ghost predicate HeadersAnswer(p: Provider, hash: nat -> string) {
    forall n, b :: p.header(n, b) == Some(hash(b))
  }

  ghost predicate BlockIsAnswered(p: Provider, n: nat, block: nat) {
    p.logs(n, block, block).Rows?
  }

  /** Requests for a single block's logs, and for headers, are answered; larger ranges may fail at will. */
  ghost predicate BlocksAnswer(p: Provider, hash: nat -> string) {
    HeadersAnswer(p, hash) && forall n, block :: BlockIsAnswered(p, n, block)
  }

  function Place(row: RawLog): (Option<nat>, Option<nat>, Option<nat>) {
    (row.block, row.transaction, row.index)
  }

  /** Rows carry their block's hash, and no two share a place in the chain. */
  ghost predicate OnChain(raw: seq<RawLog>, hash: nat -> string) {
    && (forall row :: row in raw && row.block.Some? ==> row.blockHash == Some(hash(row.block.value)))
    && (forall a, b :: a in raw && b in raw && a != b ==> Place(a) != Place(b))
  }

  lemma {:induction false} UsableRowsAreChecked(p: Provider, f: Filter, rows: seq<RawLog>, first: nat, last: nat,
                                                w: World, hash: nat -> string)
    requires HeadersAnswer(p, hash) && TrueHeaders(w, hash)
    ensures TrueHeaders(CanonicalAll(p, rows, first, last, w).1, hash)
    ensures (forall i :: 0 <= i < |rows| ==>
               Usable(f, rows[i]) && RowInRange(rows[i], first, last)
                   && rows[i].blockHash == Some(hash(rows[i].block.value))) ==>
            CanonicalAll(p, rows, first, last, w).0.Some?
  {
    if rows != [] {
      var (log, w1) := Canonical(p, rows[0], first, last, w);
      UsableRowsAreChecked(p, f, rows[1..], first, last, w1, hash);
      assert forall i :: 0 <= i < |rows[1..]| ==> rows[1..][i] == rows[i + 1];
    }
  }

  /** Logs of distinct places have distinct locators. */
  lemma {:induction false} PlacesAreLocators(logs: seq<Log>, rows: seq<RawLog>)
    requires |logs| == |rows| && NoRepeats(rows) && forall i :: 0 <= i < |rows| ==> Sent(logs[i]) == rows[i]
    requires forall i, j :: 0 <= i < j < |rows| ==> Place(rows[i]) != Place(rows[j])
    ensures |LocatorSet(logs)| == |logs|
  {
    var locators := seq(|logs|, i requires 0 <= i < |logs| => Locator(logs[i]));
    forall i, j | 0 <= i < j < |locators| ensures locators[i] != locators[j] {
      assert Place(Sent(logs[i])) != Place(Sent(logs[j]));
    }
    forall l ensures l in Elements(locators) <==> l in LocatorSet(logs) {
      if l in locators { var i :| 0 <= i < |locators| && locators[i] == l; }
      if l in LocatorSet(logs) {
        var log :| log in logs && Locator(log) == l;
        var i :| 0 <= i < |logs| && logs[i] == log;
        assert locators[i] == l;
      }
    }
    assert Elements(locators) == LocatorSet(logs);
    DistinctCount(locators);
  }

  lemma {:induction false} SortKeepsLocators(logs: seq<Log>)
    ensures LocatorSet(Sort(logs, InOrder)) == LocatorSet(logs)
  {
    SortKeepsMembers(logs, InOrder);
  }

  lemma {:induction false} CheckedRowsAreDistinct(p: Provider, rows: seq<RawLog>, first: nat, last: nat, w: World)
    requires CanonicalAll(p, rows, first, last, w).0.Some? && NoRepeats(rows)
    requires forall i, j :: 0 <= i < j < |rows| ==> Place(rows[i]) != Place(rows[j])
    ensures var ordered := Sort(CanonicalAll(p, rows, first, last, w).0.value, InOrder);
      |LocatorSet(ordered)| == |ordered|
  {
    CanonicalRows(p, rows, first, last, w);
    var verified := CanonicalAll(p, rows, first, last, w).0.value;
    PlacesAreLocators(verified, rows);
    SortKeepsLocators(verified);
  }

  lemma {:induction false} LogsKeepTrueHeaders(p: Provider, f: Filter, first: nat, last: nat, w: World,
                                               hash: nat -> string)
    requires HeadersAnswer(p, hash) && TrueHeaders(w, hash)
    ensures TrueHeaders(Logs(p, f, first, last, w).1, hash)
  {
    if FilterIsWellFormed(f) && p.logs(w.clock, first, last).Rows? {
      UsableRowsAreChecked(p, f, p.logs(w.clock, first, last).rows, first, last, w.(clock := w.clock + 1), hash);
    }
  }

  lemma {:induction false} AnsweredRowsHavePlaces(p: Provider, f: Filter, first: nat, last: nat, n: nat,
                                                  raw: seq<RawLog>, hash: nat -> string)
    requires AnswerIsTruthful(p, raw, n, first, last) && OnChain(raw, hash) && AllUsable(f, raw, first, last)
    requires p.logs(n, first, last).Rows?
    ensures var rows := p.logs(n, first, last).rows;
      (forall i :: 0 <= i < |rows| ==>
         Usable(f, rows[i]) && RowInRange(rows[i], first, last) && rows[i].blockHash == Some(hash(rows[i].block.value)))
      && (forall i, j :: 0 <= i < j < |rows| ==> Place(rows[i]) != Place(rows[j]))
  {
    var rows := p.logs(n, first, last).rows;
    forall i | 0 <= i < |rows|
      ensures Usable(f, rows[i]) && RowInRange(rows[i], first, last)
          && rows[i].blockHash == Some(hash(rows[i].block.value))
    {
      assert rows[i] in rows;
    }
    forall i, j | 0 <= i < j < |rows| ensures Place(rows[i]) != Place(rows[j]) {
      assert rows[i] in rows && rows[j] in rows && rows[i] != rows[j];
    }
  }

  lemma {:induction false} GoodReplyIsDelivered(p: Provider, f: Filter, first: nat, last: nat, w: World,
                                                rows: seq<RawLog>)
    requires FilterIsWellFormed(f) && p.logs(w.clock, first, last) == Rows(rows)
    requires forall i :: 0 <= i < |rows| ==> Allows(f, rows[i])
    requires CanonicalAll(p, rows, first, last, w.(clock := w.clock + 1)).0.Some?
    requires var ordered := Sort(CanonicalAll(p, rows, first, last, w.(clock := w.clock + 1)).0.value, InOrder);
      |LocatorSet(ordered)| == |ordered|
    ensures Logs(p, f, first, last, w).0.Some?
  {
  }

  /** A request that is answered succeeds when every row of its range is usable. */
  lemma {:induction false} AnswersSucceed(p: Provider, f: Filter, first: nat, last: nat, w: World, raw: seq<RawLog>,
                                          hash: nat -> string)
    requires FilterIsWellFormed(f) && TruthfulOrFailing(p, raw) && OnChain(raw, hash) && AllUsable(f, raw, first, last)
    requires HeadersAnswer(p, hash) && TrueHeaders(w, hash) && p.logs(w.clock, first, last).Rows?
    ensures Logs(p, f, first, last, w).0.Some?
  {
    var rows, after := p.logs(w.clock, first, last).rows, w.(clock := w.clock + 1);
    assert AnswerIsTruthful(p, raw, w.clock, first, last);
    AnsweredRowsHavePlaces(p, f, first, last, w.clock, raw, hash);
    UsableRowsAreChecked(p, f, rows, first, last, after, hash);
    CheckedRowsAreDistinct(p, rows, first, last, after);
    GoodReplyIsDelivered(p, f, first, last, w, rows);
  }

  ghost predicate Works(hash: nat -> string, o: AdaptiveScan.Outcome) {
    o.logs.Some? && TrueHeaders(o.world, hash)
  }

  lemma {:induction false} AdaptiveWorks(p: Provider, f: Filter, first: nat, last: nat, w: World, raw: seq<RawLog>,
                                         hash: nat -> string)
    requires first <= last && FilterIsWellFormed(f)
    requires TruthfulOrFailing(p, raw) && OnChain(raw, hash) && AllUsable(f, raw, first, last)
    requires BlocksAnswer(p, hash) && TrueHeaders(w, hash)
    ensures Works(hash, Adaptive(p, f, first, last, w))
    decreases last - first
  {
    LogsKeepTrueHeaders(p, f, first, last, w, hash);
    var (got, after) := Logs(p, f, first, last, w);
    if got.None? {
      if first == last {
        assert BlockIsAnswered(p, w.clock, first);
        AnswersSucceed(p, f, first, last, w, raw, hash);
      } else {
        var middle := (first + last) / 2;
        AdaptiveWorks(p, f, first, middle, after, raw, hash);
        AdaptiveWorks(p, f, middle + 1, last, Adaptive(p, f, first, middle, after).world, raw, hash);
      }
    }
  }

  ghost predicate RangeWorks(range: RangeScan, hash: nat -> string, low: nat, high: nat, first: nat, last: nat,
                             w: World)
  {
    low <= first <= last <= high && TrueHeaders(w, hash) ==> Works(hash, range(first, last, w))
  }

  lemma {:induction false} ChunksWork(range: RangeScan, hash: nat -> string, low: nat, high: nat, first: nat,
                                      last: nat, w: World)
    requires low <= first && last <= high && TrueHeaders(w, hash)
    requires forall a, b, w' :: RangeWorks(range, hash, low, high, a, b, w')
    ensures Works(hash, Chunks(range, first, last, w))
    decreases last + 1 - first
  {
    if first <= last {
      var end := ChunkEnd(first, last);
      assert RangeWorks(range, hash, low, high, first, end, w);
      ChunksWork(range, hash, low, high, end + 1, last, range(first, end, w).world);
    }
  }

  /** On an answering provider a scan succeeds exactly when every row of the range is usable. */
  lemma {:induction false} ScanSucceedsExactly(p: Provider, f: Filter, first: nat, last: nat, w: World,
                                               raw: seq<RawLog>, hash: nat -> string)
    requires FilterIsWellFormed(f) && TruthfulOrFailing(p, raw) && OnChain(raw, hash)
    requires BlocksAnswer(p, hash) && TrueHeaders(w, hash)
    ensures Scan(p, f, first, last, w).logs.Some? <==> AllUsable(f, raw, first, last)
  {
    if Scan(p, f, first, last, w).logs.Some? { ScanCovers(p, f, first, last, w, raw); }
    if AllUsable(f, raw, first, last) {
      forall a: nat, b: nat, w': World ensures RangeWorks(Ranges(p, f), hash, first, last, a, b, w') {
        if first <= a <= b <= last && TrueHeaders(w', hash) {
          AdaptiveWorks(p, f, a, b, w', raw, hash);
        }
      }
      ChunksWork(Ranges(p, f), hash, first, last, first, last, w);
    }
  }

  // ---- exactly when the operation ends without error ----

  /** The row is an update of a question by the question's recorded creator. */
  ghost predicate IsOwnUpdate(question: Question, row: RawLog) {
    && |row.topics| == 3 && row.address == Some(question.adapter) && row.topics[1] == Some(question.questionId)
    && row.topics[2].Some? && TopicAddress(row.topics[2].value) == question.creator
  }

  /** Some selected question has the identifier. */
  ghost predicate IsSelectedId(questions: map<Key, Question>, id: Option<string>) {
    exists key :: key in questions && Some(questions[key].questionId) == id
  }

  /** The row is what a log looks like: nothing missing or malformed. */
  ghost predicate IsLog(row: RawLog) {
    exists log :: Sent(log) == row
  }

  /**
   The row is a log with exactly three topics, of which the first says that it is an update and the second
   is a selected question's identifier, and the creator's own updates pass review.
   */
  ghost predicate RowPasses(questions: map<Key, Question>, review: Review, row: RawLog) {
    && IsLog(row) && |row.topics| == 3
    && row.topics[0] == Some(ANCILLARY_UPDATED_TOPIC) && IsSelectedId(questions, row.topics[1])
    && (forall key :: key in questions && IsOwnUpdate(questions[key], row) ==>
          review(row.data.GetOr(""), questions[key].fixtureId, questions[key].propositionType).Some?)
  }

  ghost predicate RowsPass(questions: map<Key, Question>, review: Review, raw: seq<RawLog>, first: nat, last: nat) {
    forall row :: row in raw && RowInRange(row, first, last) ==> RowPasses(questions, review, row)
  }

  /** The filter of the updates lets a row pass that names the update topic and then a selected question. */
  lemma {:induction false} UpdateFilterAllowsExactly(questions: map<Key, Question>, row: RawLog)
    requires row.address.Some? && None !in row.topics
    ensures Allows(UpdateFilter(questions), row) <==>
            |row.topics| >= 2 && row.topics[0] == Some(ANCILLARY_UPDATED_TOPIC)
                && IsSelectedId(questions, row.topics[1])
  {
    var topic, ids := {ANCILLARY_UPDATED_TOPIC}, set key | key in questions :: questions[key].questionId;
    EmptyFilterAllows(row);
    LongerFilterAllows(Filter(None, []), Some(topic), row);
    LongerFilterAllows(Filter(None, [Some(topic)]), Some(ids), row);
    assert [] + [Some(topic)] == [Some(topic)] && [Some(topic)] + [Some(ids)] == [Some(topic), Some(ids)];
    if |row.topics| >= 2 {
      assert row.topics[0] in row.topics && row.topics[1] in row.topics;
      assert row.topics[1].value in ids <==> IsSelectedId(questions, row.topics[1]);
    }
  }

  /** What the scan and the loop ask of a row, one after the other. */
  ghost predicate IsAccepted(f: Filter, questions: map<Key, Question>, review: Review, row: RawLog)
    requires IdentitiesAreDistinct(questions)
  {
    Usable(f, row) && Passes(IndexOf(questions), questions, review, Parsed(row, row.block.value, row.block.value))
  }

  lemma {:induction false} LogsAreCanonical(log: Log)
    ensures Sent(log).address.Some? && None !in Sent(log).topics
    ensures log.topics != [] ==> FieldsAreCanonical(Sent(log), log.block, log.block)
  {
  }

  lemma {:induction false} OwnUpdatesAreAuthorized(questions: map<Key, Question>, key: Key, log: Log)
    requires IdentitiesAreDistinct(questions) && key in questions
    ensures IsOwnUpdate(questions[key], Sent(log)) <==>
            IsAuthorized(IndexOf(questions), questions, log) && KeyOf(IndexOf(questions), log) == key
  {
    assert Scoped(questions[key]) in IndexOf(questions) && IndexOf(questions)[Scoped(questions[key])] == key;
    if IsSelected(IndexOf(questions), log) && KeyOf(IndexOf(questions), log) == key {
      assert Scoped(questions[key]) == (log.address, log.topics[1]);
    }
  }

  lemma {:induction false} LogPassesExactly(questions: map<Key, Question>, review: Review, log: Log)
    requires IdentitiesAreDistinct(questions) && log.topics != []
    ensures RowPasses(questions, review, Sent(log))
       <==> Allows(UpdateFilter(questions), Sent(log)) && Passes(IndexOf(questions), questions, review, log)
  {
    var row, index := Sent(log), IndexOf(questions);
    LogsAreCanonical(log);
    UpdateFilterAllowsExactly(questions, row);
    forall key | key in questions
      ensures IsOwnUpdate(questions[key], row) <==> IsAuthorized(index, questions, log) && KeyOf(index, log) == key
    {
      OwnUpdatesAreAuthorized(questions, key, log);
    }
    assert IsAuthorized(index, questions, log) ==> KeyOf(index, log) in questions;
    assert Sent(log) == row;
  }

  /** Together they are the condition on the row alone. */
  lemma {:induction false} RowPassesExactly(questions: map<Key, Question>, review: Review, row: RawLog)
    requires IdentitiesAreDistinct(questions)
    ensures RowPasses(questions, review, row) <==> IsAccepted(UpdateFilter(questions), questions, review, row)
  {
    if RowPasses(questions, review, row) {
      var log :| Sent(log) == row;
      assert |log.topics| == |row.topics|;
      LogsAreCanonical(log);
      ParsedIsTheLog(row, log);
      LogPassesExactly(questions, review, log);
    }
    if IsAccepted(UpdateFilter(questions), questions, review, row) {
      var log := Parsed(row, row.block.value, row.block.value);
      ParsedIsTheLog(row, log);
      LogPassesExactly(questions, review, log);
    }
  }

  lemma {:induction false} ParsedIsTheLog(row: RawLog, log: Log)
    requires row.block.Some? && FieldsAreCanonical(row, row.block.value, row.block.value)
    ensures Sent(log) == row <==> log == Parsed(row, row.block.value, row.block.value)
  {
    if Sent(log) == row { SentIsInjective(log, Parsed(row, row.block.value, row.block.value)); }
  }

  lemma {:induction false} DeliveredLogsPassExactly(f: Filter, questions: map<Key, Question>, review: Review,
                                                    raw: seq<RawLog>, first: nat, last: nat, logs: seq<Log>)
    requires f == UpdateFilter(questions) && IdentitiesAreDistinct(questions) && Covered(f, raw, first, last, logs)
    ensures (forall log :: log in logs ==> Passes(IndexOf(questions), questions, review, log))
       <==> RowsPass(questions, review, raw, first, last)
  {
    if RowsPass(questions, review, raw, first, last) {
      forall log: Log | log in logs ensures Passes(IndexOf(questions), questions, review, log) {
        var row := Sent(log);
        assert row in raw && RowInRange(row, first, last) && RowPasses(questions, review, row);
        RowPassesExactly(questions, review, row);
        ParsedIsTheLog(row, log);
      }
    }
    if forall log :: log in logs ==> Passes(IndexOf(questions), questions, review, log) {
      forall row: RawLog | row in raw ensures RowInRange(row, first, last) ==> RowPasses(questions, review, row) {
        if RowInRange(row, first, last) {
          var log := Parsed(row, row.block.value, row.block.value);
          ParsedIsTheLog(row, log);
          assert log in logs;
          RowPassesExactly(questions, review, row);
        }
      }
    }
  }

  lemma {:induction false} SortedRunSucceedsExactly(review: Review, questions: map<Key, Question>, logs: seq<Log>)
    requires IdentitiesAreDistinct(questions)
    ensures Replayed(review, questions, Sort(logs, InOrder)).Success?
       <==> forall log :: log in logs ==> Passes(IndexOf(questions), questions, review, log)
  {
    var sorted := Sort(logs, InOrder);
    SortKeepsMembers(logs, InOrder);
    RunSucceedsExactly(IndexOf(questions), questions, review, sorted, |sorted|);
    if Replayed(review, questions, sorted).Success? {
      forall log: Log | log in logs ensures Passes(IndexOf(questions), questions, review, log) {
        assert log in sorted;
        var i :| 0 <= i < |sorted| && sorted[i] == log;
        assert Passes(IndexOf(questions), questions, review, sorted[i]);
      }
    }
    if forall log :: log in logs ==> Passes(IndexOf(questions), questions, review, log) {
      forall i | 0 <= i < |sorted| ensures Passes(IndexOf(questions), questions, review, sorted[i]) {
        assert sorted[i] in sorted;
      }
    }
  }

  /**
   With single blocks and headers answered, the whole operation ends without error exactly when the
   questions' identities are distinct, they can be asked for (unless the range of blocks is empty), and
   every row of the range, by whomever, is a log with exactly three topics, the update topic and a selected
   question's identifier first, and passes review if it is that question's creator's.
   */
  lemma {:induction false} UpdatesSucceedExactly(p: Provider, first: nat, last: nat, w: World, raw: seq<RawLog>,
                                                 hash: nat -> string, review: Review, questions: map<Key, Question>)
    requires TruthfulOrFailing(p, raw) && OnChain(raw, hash) && BlocksAnswer(p, hash) && TrueHeaders(w, hash)
    ensures UpdateAll(p, first, last, w, review, questions).Success?
       <==> IdentitiesAreDistinct(questions) && (first <= last ==> CanBeAsked(questions))
            && RowsPass(questions, review, raw, first, last)
  {
    var f := UpdateFilter(questions);
    UpdateFilterIsWellFormed(questions);
    if first > last {
      if IdentitiesAreDistinct(questions) { EmptyRangeSucceeds(p, f, first, last, w, review, questions); }
    } else if FilterIsWellFormed(f) {
      if IdentitiesAreDistinct(questions) {
        AnsweredUpdatesSucceedExactly(p, f, first, last, w, raw, hash, review, questions);
      }
    } else {
      MalformedFilterRaises(p, f, first, ChunkEnd(first, last), w);
    }
  }

  /** An empty range of blocks sends no request and has nothing to replay. */
  lemma {:induction false} EmptyRangeSucceeds(p: Provider, f: Filter, first: nat, last: nat, w: World, review: Review,
                                              questions: map<Key, Question>)
    requires f == UpdateFilter(questions) && first > last && IdentitiesAreDistinct(questions)
    ensures UpdateAll(p, first, last, w, review, questions) == Success(Applied(questions, 0, 0))
  {
    assert Scan(p, f, first, last, w).logs == Some([]);
    assert Sort<Log>([], InOrder) == [];
  }

  lemma {:induction false} AnsweredUpdatesSucceedExactly(p: Provider, f: Filter, first: nat, last: nat, w: World,
                                                         raw: seq<RawLog>, hash: nat -> string, review: Review,
                                                         questions: map<Key, Question>)
    requires f == UpdateFilter(questions) && FilterIsWellFormed(f) && IdentitiesAreDistinct(questions)
    requires TruthfulOrFailing(p, raw) && OnChain(raw, hash) && BlocksAnswer(p, hash) && TrueHeaders(w, hash)
    ensures UpdateAll(p, first, last, w, review, questions).Success?
        <==> RowsPass(questions, review, raw, first, last)
  {
    ScanSucceedsExactly(p, f, first, last, w, raw, hash);
    if Scan(p, f, first, last, w).logs.Some? {
      var logs := Scan(p, f, first, last, w).logs.value;
      ScanCovers(p, f, first, last, w, raw);
      DeliveredLogsPassExactly(f, questions, review, raw, first, last, logs);
      SortedRunSucceedsExactly(review, questions, logs);
    } else {
      var row :| row in raw && RowInRange(row, first, last) && !Usable(f, row);
      RowPassesExactly(questions, review, row);
      assert !RowPasses(questions, review, row);
    }
  }

  // ---- blindness to third parties, end to end ----

  /** Two chains hold the same updates by the questions' creators in a range. */
  ghost predicate SameCreatorUpdates(questions: map<Key, Question>, raw: seq<RawLog>, raw': seq<RawLog>, first: nat,
                                     last: nat)
    requires IdentitiesAreDistinct(questions)
  {
    forall log: Log :: first <= log.block <= last && IsAuthorized(IndexOf(questions), questions, log) ==>
      (Sent(log) in raw <==> Sent(log) in raw')
  }

  lemma {:induction false} AuthorizedStaysSorted(index: map<(string, string), Key>, questions: map<Key, Question>,
                                                 logs: seq<Log>, n: nat)
    requires Covers(index, questions) && n <= |logs| && StrictlySorted(logs, InOrder)
    ensures StrictlySorted(Authorized(index, questions, logs, n), InOrder)
  {
    if n > 0 {
      AuthorizedStaysSorted(index, questions, logs, n - 1);
      AuthorizedMembers(index, questions, logs, n - 1);
      var own := Authorized(index, questions, logs, n - 1);
      forall i | 0 <= i < |own| ensures InOrder(own[i], logs[n - 1]) && !InOrder(logs[n - 1], own[i]) {
        assert own[i] in own;
        var k :| 0 <= k < n - 1 && logs[k] == own[i];
      }
    }
  }

  lemma {:induction false} SameAuthorized(questions: map<Key, Question>, raw: seq<RawLog>, raw': seq<RawLog>,
                                          first: nat, last: nat, logs: seq<Log>, logs': seq<Log>)
    requires IdentitiesAreDistinct(questions) && SameCreatorUpdates(questions, raw, raw', first, last)
    requires Delivers(raw, first, last, logs) && Delivers(raw', first, last, logs')
    requires StrictlySorted(logs, InOrder) && StrictlySorted(logs', InOrder)
    ensures Authorized(IndexOf(questions), questions, logs, |logs|)
        == Authorized(IndexOf(questions), questions, logs', |logs'|)
  {
    var index := IndexOf(questions);
    var own, own' := Authorized(index, questions, logs, |logs|), Authorized(index, questions, logs', |logs'|);
    AuthorizedStaysSorted(index, questions, logs, |logs|);
    AuthorizedStaysSorted(index, questions, logs', |logs'|);
    AuthorizedMembers(index, questions, logs, |logs|);
    AuthorizedMembers(index, questions, logs', |logs'|);
    forall log: Log ensures log in own <==> log in own' {
      assert log in own <==> log in logs && IsAuthorized(index, questions, log);
      assert log in own' <==> log in logs' && IsAuthorized(index, questions, log);
    }
    OrderedByMembers(own, own', InOrder);
  }

  /**
   Two runs that end without error, on any two chains through any two providers, select the same questions
   and accept as many updates if the chains agree on the creators' own updates, whatever others wrote.
   */
  lemma {:induction false} UpdatesAreBlind(p: Provider, p': Provider, first: nat, last: nat, w: World, w': World,
                                           raw: seq<RawLog>, raw': seq<RawLog>, review: Review,
                                           questions: map<Key, Question>)
    requires TruthfulOrFailing(p, raw) && TruthfulOrFailing(p', raw')
    requires IdentitiesAreDistinct(questions) && SameCreatorUpdates(questions, raw, raw', first, last)
    requires UpdateAll(p, first, last, w, review, questions).Success?
    requires UpdateAll(p', first, last, w', review, questions).Success?
    ensures UpdateAll(p, first, last, w, review, questions).value.selected
         == UpdateAll(p', first, last, w', review, questions).value.selected
    ensures UpdateAll(p, first, last, w, review, questions).value.accepted
         == UpdateAll(p', first, last, w', review, questions).value.accepted
  {
    var f := UpdateFilter(questions);
    var logs, logs' := Scan(p, f, first, last, w).logs.value, Scan(p', f, first, last, w').logs.value;
    ScanCovers(p, f, first, last, w, raw);
    ScanCovers(p', f, first, last, w', raw');
    ScanIsSound(p, f, first, last, w);
    ScanIsSound(p', f, first, last, w');
    SortIsIdentityOnSorted(logs, InOrder);
    SortIsIdentityOnSorted(logs', InOrder);
    SameAuthorized(questions, raw, raw', first, last, logs, logs');
    OnlyCreatorsMatter(IndexOf(questions), questions, review, logs, logs');
  }
}
