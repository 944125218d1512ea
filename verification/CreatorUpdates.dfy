/**
 Creator updates of selected questions. The logs of a scan are replayed in chain order; an update counts
 only if its author is the creator recorded with the question. The results are that a run that ends
 without error depends on nothing but the creators' own updates, that each question ends with its last
 such update, and exactly when a run ends without error.
 */
module CreatorUpdates {
  import opened Wrappers
  import opened Sorting
  import opened AdaptiveScan

  type Key = (int, string)

  datatype Question = Question(
    questionId: string, adapter: string, creator: string, transactionHash: string, logIndex: nat,
    blockNumber: nat, blockHash: string, propositionType: string, fixtureId: int, wording: Wording)

  /** The fields an update replaces: the ancillary data's hash, the title and the two outcome labels. */
  datatype Wording = Wording(ancillaryHash: string, title: string, noLabel: string, yesLabel: string)

  datatype Error = DuplicatedIdentity | MalformedTopics | SemanticsChanged

  /** Decoding, parsing and checking update data for a fixture and a proposition type; None where it raises. */
  type Review = (string, int, string) -> Option<Wording>

  datatype Applied = Applied(selected: map<Key, Question>, accepted: nat, ignored: nat)

  function Scoped(question: Question): (string, string) {
    (question.adapter, question.questionId)
  }

  /** An indexed address is the last twenty bytes of its topic. */
  function TopicAddress(topic: string): string {
    "0x" + if |topic| < 40 then topic else topic[|topic| - 40..]
  }

  ghost predicate IdentitiesAreDistinct(questions: map<Key, Question>) {
    forall a, b :: a in questions && b in questions && a != b ==> Scoped(questions[a]) != Scoped(questions[b])
  }

  ghost function IndexOf(questions: map<Key, Question>): map<(string, string), Key>
    requires IdentitiesAreDistinct(questions)
  {
    map key | key in questions :: Scoped(questions[key]) := key
  }

  ghost predicate Covers(index: map<(string, string), Key>, questions: map<Key, Question>) {
    forall scoped :: scoped in index ==> index[scoped] in questions
  }

  function Step(index: map<(string, string), Key>, review: Review, st: Applied, log: Log): (r: Result<Applied, Error>)
    requires Covers(index, st.selected)
    ensures r.Success? ==> r.value.selected.Keys == st.selected.Keys
  {
    if |log.topics| != 3 then Failure(MalformedTopics)
    else if (log.address, log.topics[1]) !in index then Success(st)
    else
      var key := index[(log.address, log.topics[1])];
      var question := st.selected[key];
      if TopicAddress(log.topics[2]) != question.creator then Success(st.(ignored := st.ignored + 1))
      else
        match review(log.data, question.fixtureId, question.propositionType)
        case None => Failure(SemanticsChanged)
        case Some(wording) =>
          Success(Applied(st.selected[key := question.(wording := wording)], st.accepted + 1, st.ignored))
  }

  /** The state after the first n logs. */
  function Run(index: map<(string, string), Key>, review: Review, questions: map<Key, Question>, logs: seq<Log>, n: nat)
    : (r: Result<Applied, Error>)
    requires Covers(index, questions) && n <= |logs|
    ensures r.Success? ==> r.value.selected.Keys == questions.Keys
  {
    if n == 0 then Success(Applied(questions, 0, 0))
    else
      var st :- Run(index, review, questions, logs, n - 1);
      Step(index, review, st, logs[n - 1])
  }

  ghost function Replayed(review: Review, questions: map<Key, Question>, logs: seq<Log>): Result<Applied, Error> {
    if !IdentitiesAreDistinct(questions) then Failure(DuplicatedIdentity)
    else Run(IndexOf(questions), review, questions, logs, |logs|)
  }

  lemma {:induction false} ErrorStays(index: map<(string, string), Key>, review: Review,
                                      questions: map<Key, Question>, logs: seq<Log>, n: nat, m: nat)
    requires Covers(index, questions) && n <= m <= |logs|
    requires Run(index, review, questions, logs, n).Failure?
    ensures Run(index, review, questions, logs, m) == Run(index, review, questions, logs, n)
    decreases m
  {
    if n < m { ErrorStays(index, review, questions, logs, n, m - 1); }
  }

  /** Builds the index question by question, in no particular order, and refuses a repeated identity. */
  method BuildIndex(questions: map<Key, Question>) returns (r: Result<map<(string, string), Key>, Error>)
    ensures r.Success? <==> IdentitiesAreDistinct(questions)
    ensures r.Success? ==> r.value == IndexOf(questions)
    ensures r.Failure? ==> r.error == DuplicatedIdentity
  {
    var index: map<(string, string), Key> := map[];
    var pending := questions.Keys;
    while pending != {}
      invariant pending <= questions.Keys
      invariant forall key :: key in questions && key !in pending ==>
        Scoped(questions[key]) in index && index[Scoped(questions[key])] == key
      invariant forall scoped :: scoped in index ==>
        index[scoped] in questions && index[scoped] !in pending && Scoped(questions[index[scoped]]) == scoped
      decreases |pending|
    {
      var key :| key in pending;
      if Scoped(questions[key]) in index {
        return Failure(DuplicatedIdentity);
      }
      index := index[Scoped(questions[key]) := key];
      pending := pending - {key};
    }
    r := Success(index);
  }

  /** One log against the questions as they stand, updated in place. */
  method ApplyLog(index: map<(string, string), Key>, review: Review, st: Applied, log: Log)
    returns (r: Result<Applied, Error>)
    requires Covers(index, st.selected)
    ensures r == Step(index, review, st, log)
  {
    var selected, accepted, ignored := st.selected, st.accepted, st.ignored;
    if |log.topics| != 3 {
      return Failure(MalformedTopics);
    }
    if (log.address, log.topics[1]) in index {
      var key := index[(log.address, log.topics[1])];
      var question := selected[key];
      if TopicAddress(log.topics[2]) != question.creator {
        ignored := ignored + 1;
      } else {
        var wording := review(log.data, question.fixtureId, question.propositionType);
        if wording.None? {
          return Failure(SemanticsChanged);
        }
        selected := selected[key := question.(wording := wording.value)];
        accepted := accepted + 1;
      }
    }
    r := Success(Applied(selected, accepted, ignored));
  }

  /** The loop over the ordered logs stops at the first one that raises. */
  method ApplyLogs(index: map<(string, string), Key>, review: Review, questions: map<Key, Question>, logs: seq<Log>)
    returns (r: Result<Applied, Error>)
    requires Covers(index, questions)
    ensures r == Run(index, review, questions, logs, |logs|)
  {
    var st := Applied(questions, 0, 0);
    var i := 0;
    while i < |logs|
      invariant 0 <= i <= |logs| && st.selected.Keys == questions.Keys
      invariant Run(index, review, questions, logs, i) == Success(st)
    {
      var next := ApplyLog(index, review, st, logs[i]);
      i := i + 1;
      if next.Failure? {
        ErrorStays(index, review, questions, logs, i, |logs|);
        return next;
      }
      st := next.value;
    }
    r := Success(st);
  }

  /** The whole operation: index, order the scanned logs, apply them one by one. */
  method ApplyCreatorUpdates(review: Review, questions: map<Key, Question>, scanned: seq<Log>)
    returns (r: Result<Applied, Error>)
    ensures r == Replayed(review, questions, Sort(scanned, InOrder))
  {
    var built := BuildIndex(questions);
    if built.Failure? {
      return Failure(built.error);
    }
    r := ApplyLogs(built.value, review, questions, Sort(scanned, InOrder));
  }

  // ---- what a log means, read off the questions as first selected ----

  predicate IsSelected(index: map<(string, string), Key>, log: Log) {
    |log.topics| == 3 && (log.address, log.topics[1]) in index
  }

  function KeyOf(index: map<(string, string), Key>, log: Log): Key
    requires IsSelected(index, log)
  {
    index[(log.address, log.topics[1])]
  }

  /** The log updates a selected question and its author is that question's creator. */
  predicate IsAuthorized(index: map<(string, string), Key>, questions: map<Key, Question>, log: Log)
    requires Covers(index, questions)
  {
    IsSelected(index, log) && TopicAddress(log.topics[2]) == questions[KeyOf(index, log)].creator
  }

  function Reviewed(index: map<(string, string), Key>, questions: map<Key, Question>, review: Review, log: Log)
    : Option<Wording>
    requires Covers(index, questions) && IsSelected(index, log)
  {
    var question := questions[KeyOf(index, log)];
    review(log.data, question.fixtureId, question.propositionType)
  }

  /** The last authorized update of one question among the first n logs. */
  function LastUpdate(index: map<(string, string), Key>, questions: map<Key, Question>, logs: seq<Log>, n: nat,
                      key: Key): (r: Option<Log>)
    requires Covers(index, questions) && n <= |logs|
    ensures r.Some? ==> IsAuthorized(index, questions, r.value) && KeyOf(index, r.value) == key
  {
    if n == 0 then None
    else if IsAuthorized(index, questions, logs[n - 1]) && KeyOf(index, logs[n - 1]) == key then Some(logs[n - 1])
    else LastUpdate(index, questions, logs, n - 1, key)
  }

  /** A question with the wording of its last authorized update, or as it was first selected. */
  ghost predicate FollowsItsCreator(index: map<(string, string), Key>, questions: map<Key, Question>, review: Review,
                                    logs: seq<Log>, n: nat, key: Key, question: Question)
    requires Covers(index, questions) && n <= |logs| && key in questions
  {
    match LastUpdate(index, questions, logs, n, key)
    case None => question == questions[key]
    case Some(log) =>
      var wording := Reviewed(index, questions, review, log);
      wording.Some? && question == questions[key].(wording := wording.value)
  }

  /** Every question ends with its creator's last update; nothing else in it ever changes. */
  lemma {:induction false} LastCreatorUpdateWins(index: map<(string, string), Key>, questions: map<Key, Question>,
                                                 review: Review, logs: seq<Log>, n: nat, key: Key)
    requires Covers(index, questions) && n <= |logs| && key in questions
    requires Run(index, review, questions, logs, n).Success?
    ensures FollowsItsCreator(index, questions, review, logs, n, key,
        Run(index, review, questions, logs, n).value.selected[key])
  {
    if n > 0 {
      LastCreatorUpdateWins(index, questions, review, logs, n - 1, key);
      var log := logs[n - 1];
      if IsSelected(index, log) {
        LastCreatorUpdateWins(index, questions, review, logs, n - 1, KeyOf(index, log));
      }
    }
  }

  lemma {:induction false} CreatorStays(index: map<(string, string), Key>, questions: map<Key, Question>,
                                        review: Review, logs: seq<Log>, n: nat, log: Log)
    requires Covers(index, questions) && n <= |logs|
    requires Run(index, review, questions, logs, n).Success? && IsSelected(index, log)
    ensures var question, original := Run(index, review, questions, logs, n).value.selected[KeyOf(index, log)],
        questions[KeyOf(index, log)];
      question.creator == original.creator && question.fixtureId == original.fixtureId
      && question.propositionType == original.propositionType
  {
    LastCreatorUpdateWins(index, questions, review, logs, n, KeyOf(index, log));
  }

  function Updates(index: map<(string, string), Key>, logs: seq<Log>, n: nat): nat
    requires n <= |logs|
  {
    if n == 0 then 0 else Updates(index, logs, n - 1) + if IsSelected(index, logs[n - 1]) then 1 else 0
  }

  function Authorized(index: map<(string, string), Key>, questions: map<Key, Question>, logs: seq<Log>,
                      n: nat): seq<Log>
    requires Covers(index, questions) && n <= |logs|
  {
    if n == 0 then []
    else if IsAuthorized(index, questions, logs[n - 1]) then Authorized(index, questions, logs, n - 1) + [logs[n - 1]]
    else Authorized(index, questions, logs, n - 1)
  }

  /** Each log of a selected adapter and question is counted once, as accepted or as ignored. */
  lemma {:induction false} EveryUpdateIsCounted(index: map<(string, string), Key>, questions: map<Key, Question>,
                                                review: Review, logs: seq<Log>, n: nat)
    requires Covers(index, questions) && n <= |logs|
    requires Run(index, review, questions, logs, n).Success?
    ensures var st := Run(index, review, questions, logs, n).value;
      st.accepted == |Authorized(index, questions, logs, n)| && st.accepted + st.ignored == Updates(index, logs, n)
  {
    if n > 0 {
      EveryUpdateIsCounted(index, questions, review, logs, n - 1);
      if IsSelected(index, logs[n - 1]) { CreatorStays(index, questions, review, logs, n - 1, logs[n - 1]); }
    }
  }

  ghost predicate Passes(index: map<(string, string), Key>, questions: map<Key, Question>, review: Review, log: Log)
    requires Covers(index, questions)
  {
    |log.topics| == 3 && (IsAuthorized(index, questions, log) ==> Reviewed(index, questions, review, log).Some?)
  }

  /** A run succeeds exactly when every log has three topics and every creator's update passes review. */
  lemma {:induction false} RunSucceedsExactly(index: map<(string, string), Key>, questions: map<Key, Question>,
                                              review: Review, logs: seq<Log>, n: nat)
    requires Covers(index, questions) && n <= |logs|
    ensures Run(index, review, questions, logs, n).Success? <==>
            forall i :: 0 <= i < n ==> Passes(index, questions, review, logs[i])
  {
    if n > 0 {
      RunSucceedsExactly(index, questions, review, logs, n - 1);
      if Run(index, review, questions, logs, n - 1).Success? && IsSelected(index, logs[n - 1]) {
        CreatorStays(index, questions, review, logs, n - 1, logs[n - 1]);
      }
    }
  }

  // ---- blindness to third parties ----

  lemma {:induction false} RunOfPrefix(index: map<(string, string), Key>, questions: map<Key, Question>,
                                       review: Review, logs: seq<Log>, more: seq<Log>, n: nat)
    requires Covers(index, questions) && n <= |logs|
    ensures Run(index, review, questions, logs + more, n) == Run(index, review, questions, logs, n)
  {
    if n > 0 { RunOfPrefix(index, questions, review, logs, more, n - 1); }
  }

  lemma {:induction false} RunOneMore(index: map<(string, string), Key>, questions: map<Key, Question>,
                                      review: Review, logs: seq<Log>, log: Log, st: Applied)
    requires Covers(index, questions) && Run(index, review, questions, logs, |logs|) == Success(st)
    ensures st.selected.Keys == questions.Keys
    ensures Run(index, review, questions, logs + [log], |logs| + 1) == Step(index, review, st, log)
  {
    RunOfPrefix(index, questions, review, logs, [log], |logs|);
    assert (logs + [log])[|logs|] == log;
  }

  lemma {:induction false} QuietStep(index: map<(string, string), Key>, questions: map<Key, Question>, review: Review,
                                     own: seq<Log>, st: Applied, log: Log)
    requires Covers(index, questions) && st.selected.Keys == questions.Keys
    requires IsSelected(index, log) ==> st.selected[KeyOf(index, log)].creator == questions[KeyOf(index, log)].creator
    requires Step(index, review, st, log).Success?
    requires Run(index, review, questions, own, |own|) == Success(st.(ignored := 0))
    ensures var more := if IsAuthorized(index, questions, log) then own + [log] else own;
      Run(index, review, questions, more, |more|) == Success(Step(index, review, st, log).value.(ignored := 0))
  {
    if IsAuthorized(index, questions, log) {
      RunOneMore(index, questions, review, own, log, st.(ignored := 0));
    }
  }

  /** Deleting every unauthorized log leaves the questions and the accepted count as they are. */
  lemma {:induction false} ThirdPartiesChangeNothing(index: map<(string, string), Key>, questions: map<Key, Question>,
                                                     review: Review, logs: seq<Log>, n: nat)
    requires Covers(index, questions) && n <= |logs|
    requires Run(index, review, questions, logs, n).Success?
    ensures var own := Authorized(index, questions, logs, n);
      Run(index, review, questions, own, |own|) == Success(Run(index, review, questions, logs, n).value.(ignored := 0))
  {
    if n > 0 {
      ThirdPartiesChangeNothing(index, questions, review, logs, n - 1);
      var own, log := Authorized(index, questions, logs, n - 1), logs[n - 1];
      var st := Run(index, review, questions, logs, n - 1).value;
      if IsSelected(index, log) { CreatorStays(index, questions, review, logs, n - 1, log); }
      QuietStep(index, questions, review, own, st, log);
    }
  }

  /** Two runs that end without error and hold the same creators' updates select the same questions. */
  lemma {:induction false} OnlyCreatorsMatter(index: map<(string, string), Key>, questions: map<Key, Question>,
                                              review: Review, logs: seq<Log>, logs': seq<Log>)
    requires Covers(index, questions)
    requires Authorized(index, questions, logs, |logs|) == Authorized(index, questions, logs', |logs'|)
    requires Run(index, review, questions, logs, |logs|).Success?
        && Run(index, review, questions, logs', |logs'|).Success?
    ensures Run(index, review, questions, logs, |logs|).value.selected
        == Run(index, review, questions, logs', |logs'|).value.selected
    ensures Run(index, review, questions, logs, |logs|).value.accepted
        == Run(index, review, questions, logs', |logs'|).value.accepted
  {
    ThirdPartiesChangeNothing(index, questions, review, logs, |logs|);
    ThirdPartiesChangeNothing(index, questions, review, logs', |logs'|);
  }

  lemma {:induction false} AuthorizedMembers(index: map<(string, string), Key>, questions: map<Key, Question>,
                                             logs: seq<Log>, n: nat)
    requires Covers(index, questions) && n <= |logs|
    ensures forall log :: log in Authorized(index, questions, logs, n) <==>
              exists i :: 0 <= i < n && logs[i] == log && IsAuthorized(index, questions, logs[i])
  {
    if n > 0 { AuthorizedMembers(index, questions, logs, n - 1); }
  }

  /**
   Blindness stops short of errors: the number of topics is checked before the author is. A run succeeds
   exactly when the creators' own updates would and no log at all has other than three topics.
   */
  lemma {:induction false} ThirdPartiesCanAbortExactly(index: map<(string, string), Key>,
                                                       questions: map<Key, Question>, review: Review, logs: seq<Log>)
    requires Covers(index, questions)
    ensures var own := Authorized(index, questions, logs, |logs|);
      Run(index, review, questions, logs, |logs|).Success? <==>
        Run(index, review, questions, own, |own|).Success? && forall i :: 0 <= i < |logs| ==> |logs[i].topics| == 3
  {
    var own := Authorized(index, questions, logs, |logs|);
    RunSucceedsExactly(index, questions, review, logs, |logs|);
    RunSucceedsExactly(index, questions, review, own, |own|);
    AuthorizedMembers(index, questions, logs, |logs|);
    forall i | 0 <= i < |own| ensures own[i] in own { }
    if Run(index, review, questions, own, |own|).Success? && (forall i :: 0 <= i < |logs| ==> |logs[i].topics| == 3) {
      forall i | 0 <= i < |logs| ensures Passes(index, questions, review, logs[i]) {
        if IsAuthorized(index, questions, logs[i]) {
          assert logs[i] in own;
          var k :| 0 <= k < |own| && own[k] == logs[i];
          assert Passes(index, questions, review, own[k]);
        }
      }
    }
    if Run(index, review, questions, logs, |logs|).Success? {
      forall k | 0 <= k < |own| ensures Passes(index, questions, review, own[k]) {
        assert own[k] in own;
        var i :| 0 <= i < |logs| && logs[i] == own[k] && IsAuthorized(index, questions, logs[i]);
        assert Passes(index, questions, review, logs[i]);
      }
    }
  }

  /** One log with another number of topics, by anyone about anything, ends every run that would succeed. */
  lemma {:induction false} MalformedLogAborts(review: Review, questions: map<Key, Question>, logs: seq<Log>, log: Log)
    requires Replayed(review, questions, logs).Success? && |log.topics| != 3
    ensures Replayed(review, questions, logs + [log]) == Failure(MalformedTopics)
  {
    RunOfPrefix(IndexOf(questions), questions, review, logs, [log], |logs|);
  }

  // ---- fed by the scan ----

  /** The scan's own order survives the sort, so the updates are replayed as the chain has them. */
  lemma {:induction false} UpdatesFollowTheChain(p: Provider, f: Filter, first: nat, last: nat, w: World,
                                                 chain: seq<Log>, review: Review, questions: map<Key, Question>)
    requires HonestOrFailing(p, chain) && StrictlySorted(chain, InOrder)
    requires Scan(p, f, first, last, w).logs.Some?
    ensures Replayed(review, questions, Sort(Scan(p, f, first, last, w).logs.value, InOrder))
         == Replayed(review, questions, Slice(chain, first, last))
  {
    ScanIsComplete(p, f, first, last, w, chain);
    SliceMembers(chain, first, last);
    SortIsIdentityOnSorted(Slice(chain, first, last), InOrder);
  }

  // ---- who counts as the author ----

  /** A topic holds an address in its last 20 bytes: 40 digits after 24 digits of padding. */
  lemma {:induction false} TopicEndsWithAddress(pad: string, address: string)
    requires |pad| == 24 && |address| == 40
    ensures TopicAddress("0x" + pad + address) == "0x" + address
  {
    var topic := "0x" + pad + address;
    assert topic[|topic| - 40..] == address;
  }

  /** The log is about the question, and its author topic holds the given address. */
  predicate IsFrom(question: Question, log: Log, address: string) {
    && |log.topics| == 3 && log.address == question.adapter && log.topics[1] == question.questionId
    && |log.topics[2]| == 66 && |address| == 40 && log.topics[2][..2] == "0x" && log.topics[2][26..] == address
  }

  /** An update of a selected question counts exactly if the address in its author topic is the recorded creator. */
  lemma {:induction false} AuthorizedExactly(questions: map<Key, Question>, key: Key, log: Log, address: string)
    requires IdentitiesAreDistinct(questions) && key in questions && IsFrom(questions[key], log, address)
    ensures IsSelected(IndexOf(questions), log) && KeyOf(IndexOf(questions), log) == key
    ensures IsAuthorized(IndexOf(questions), questions, log) <==> questions[key].creator == "0x" + address
  {
    var topic := log.topics[2];
    assert Scoped(questions[key]) in IndexOf(questions);
    assert topic == "0x" + topic[2..26] + address;
    TopicEndsWithAddress(topic[2..26], address);
  }

  /** A later log of the same question is by somebody else. */
  ghost predicate IsByAnother(questions: map<Key, Question>, key: Key, log: Log)
    requires key in questions
  {
    forall address :: IsFrom(questions[key], log, address) ==> questions[key].creator != "0x" + address
  }

  /** The log's author topic is a word, as every topic of a scanned log is. */
  predicate NamesAuthor(log: Log) {
    |log.topics| == 3 ==> |log.topics[2]| == 66 && log.topics[2][..2] == "0x"
  }

  lemma {:induction false} AuthorizedIsFromCreator(questions: map<Key, Question>, key: Key, log: Log)
    requires IdentitiesAreDistinct(questions) && NamesAuthor(log) && IsAuthorized(IndexOf(questions), questions, log)
    requires key == KeyOf(IndexOf(questions), log)
    ensures exists address :: IsFrom(questions[key], log, address) && questions[key].creator == "0x" + address
  {
    var topic := log.topics[2];
    assert Scoped(questions[key]) == (log.address, log.topics[1]);
    assert IsFrom(questions[key], log, topic[26..]);
    AuthorizedExactly(questions, key, log, topic[26..]);
  }

  lemma {:induction false} LastUpdateIsTheOne(questions: map<Key, Question>, logs: seq<Log>, n: nat, k: nat, key: Key)
    requires IdentitiesAreDistinct(questions) && key in questions && k < n <= |logs|
    requires IsAuthorized(IndexOf(questions), questions, logs[k]) && KeyOf(IndexOf(questions), logs[k]) == key
    requires forall i :: k < i < n ==> NamesAuthor(logs[i]) && IsByAnother(questions, key, logs[i])
    ensures LastUpdate(IndexOf(questions), questions, logs, n, key) == Some(logs[k])
  {
    if k < n - 1 {
      LastUpdateIsTheOne(questions, logs, n - 1, k, key);
      var log, index := logs[n - 1], IndexOf(questions);
      if IsAuthorized(index, questions, log) && KeyOf(index, log) == key {
        AuthorizedIsFromCreator(questions, key, log);
      }
    }
  }

  /** The creator's last update of a question, by author topic, gives the question its wording and nothing else. */
  lemma {:induction false} LastOwnUpdateWins(review: Review, questions: map<Key, Question>, logs: seq<Log>, k: nat,
                                             key: Key, address: string)
    requires Replayed(review, questions, logs).Success? && key in questions && k < |logs|
    requires IsFrom(questions[key], logs[k], address) && questions[key].creator == "0x" + address
    requires forall i :: k < i < |logs| ==> NamesAuthor(logs[i]) && IsByAnother(questions, key, logs[i])
    ensures var question := questions[key];
      var wording := review(logs[k].data, question.fixtureId, question.propositionType);
      wording.Some?
      && Replayed(review, questions, logs).value.selected[key] == question.(wording := wording.value)
  {
    AuthorizedExactly(questions, key, logs[k], address);
    LastUpdateIsTheOne(questions, logs, |logs|, k, key);
    LastCreatorUpdateWins(IndexOf(questions), questions, review, logs, |logs|, key);
  }
}
