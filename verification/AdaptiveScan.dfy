/**
 The authoring scan of event logs. One request for a block range either fails or returns rows that are
 checked one by one against the requested filter, the range and the block's header; a failed range is
 bisected down to single blocks. The provider is an arbitrary function of the number of requests made
 so far, so it may fail at any request and may answer anything. The results are that a scan that ends
 without error is ordered, duplicate-free and in range whatever the provider said, that it is complete
 if the provider's answers are, and that it raises exactly at a single block that failed.
 */
module AdaptiveScan {
  import opened Wrappers
  import opened Sorting
  import opened Counting

  const SCAN_CHUNK_BLOCKS: nat := 30_000

  /** A row as the provider sends it. A field that is missing or not in canonical form is None. */
  datatype RawLog = RawLog(
    removed: Option<bool>, address: Option<string>, topics: seq<Option<string>>, data: Option<string>,
    block: Option<nat>, blockHash: Option<string>, transactionHash: Option<string>,
    transaction: Option<nat>, index: Option<nat>)

  /** A row that has been checked. */
  datatype Log = Log(
    address: string, topics: seq<string>, data: string,
    block: nat, blockHash: string, transactionHash: string, transaction: nat, index: nat)

  datatype Filter = Filter(address: Option<string>, topics: seq<Option<set<string>>>)

  datatype Reply = RpcError | Rows(rows: seq<RawLog>)

  /** What the provider answers at its n-th request. */
  datatype Provider = Provider(logs: (nat, nat, nat) -> Reply, header: (nat, nat) -> Option<string>)

  /** The requests made so far and the headers kept from them. */
  datatype World = World(clock: nat, headers: map<nat, string>)

  datatype Attempt = Attempt(first: nat, last: nat, ok: bool)

  /** The logs delivered (None when the error is raised), the world afterwards, the ranges asked for. */
  datatype Outcome = Outcome(logs: Option<seq<Log>>, world: World, attempts: seq<Attempt>)

  function Locator(log: Log): (nat, nat, nat) {
    (log.block, log.transaction, log.index)
  }

  predicate Before(a: (nat, nat, nat), b: (nat, nat, nat)) {
    a.0 < b.0 || (a.0 == b.0 && (a.1 < b.1 || (a.1 == b.1 && a.2 <= b.2)))
  }

  predicate InOrder(a: Log, b: Log) {
    Before(Locator(a), Locator(b))
  }

  // ---- one request ----

  predicate IsHexDigit(c: char) {
    '0' <= c <= '9' || 'a' <= c <= 'f'
  }

  /** The prefix and the given number of digits. */
  predicate IsHex(text: string, digits: nat) {
    |text| == digits + 2 && text[0] == '0' && text[1] == 'x' && forall i :: 2 <= i < |text| ==> IsHexDigit(text[i])
  }

  /** A list of alternatives is not empty and holds 32-byte words. */
  predicate AreWords(topics: set<string>) {
    topics != {} && forall topic :: topic in topics ==> IsHex(topic, 64)
  }

  predicate FilterIsWellFormed(f: Filter) {
    && (f.address.Some? ==> IsHex(f.address.value, 40))
    && (forall i :: 0 <= i < |f.topics| && f.topics[i].Some? ==> AreWords(f.topics[i].value))
  }

  predicate Allows(f: Filter, row: RawLog) {
    && row.address.Some?
    && (f.address.Some? ==> row.address == f.address)
    && (forall i :: 0 <= i < |row.topics| ==> row.topics[i].Some?)
    && |f.topics| <= |row.topics|
    && (forall i :: 0 <= i < |f.topics| && f.topics[i].Some? && row.topics[i].Some? ==>
          row.topics[i].value in f.topics[i].value)
  }

  /** Headers are fetched once per block number and kept; a failure is not kept. */
  function Header(p: Provider, block: nat, w: World): (Option<string>, World) {
    if block in w.headers then (Some(w.headers[block]), w)
    else
      match p.header(w.clock, block)
      case None => (None, w.(clock := w.clock + 1))
      case Some(hash) => (Some(hash), World(w.clock + 1, w.headers[block := hash]))
  }

  predicate FieldsAreCanonical(row: RawLog, first: nat, last: nat) {
    && row.removed == Some(false)
    && row.address.Some? && row.topics != [] && (forall i :: 0 <= i < |row.topics| ==> row.topics[i].Some?)
    && row.data.Some? && row.block.Some? && first <= row.block.value <= last
    && row.blockHash.Some? && row.transactionHash.Some? && row.transaction.Some? && row.index.Some?
  }

  function Parsed(row: RawLog, first: nat, last: nat): Log
    requires FieldsAreCanonical(row, first, last)
  {
    Log(row.address.value, seq(|row.topics|, i requires 0 <= i < |row.topics| => row.topics[i].value),
        row.data.value, row.block.value, row.blockHash.value, row.transactionHash.value,
        row.transaction.value, row.index.value)
  }

  /** A row is used only if its block hash is the one in the block's header. */
  function Canonical(p: Provider, row: RawLog, first: nat, last: nat, w: World): (Option<Log>, World) {
    if !FieldsAreCanonical(row, first, last) then (None, w)
    else
      var (hash, after) := Header(p, row.block.value, w);
      if hash == row.blockHash then (Some(Parsed(row, first, last)), after) else (None, after)
  }

  function CanonicalAll(p: Provider, rows: seq<RawLog>, first: nat, last: nat, w: World): (Option<seq<Log>>, World) {
    if rows == [] then (Some([]), w)
    else
      var (log, w1) := Canonical(p, rows[0], first, last, w);
      if log.None? then (None, w1)
      else
        var (rest, w2) := CanonicalAll(p, rows[1..], first, last, w1);
        if rest.None? then (None, w2) else (Some([log.value] + rest.value), w2)
  }

  function LocatorSet(logs: seq<Log>): set<(nat, nat, nat)> {
    set log | log in logs :: Locator(log)
  }

  /** One verified request: check every row, order the rows, refuse repeated locators. */
  function Logs(p: Provider, f: Filter, first: nat, last: nat, w: World): (Option<seq<Log>>, World) {
    if !FilterIsWellFormed(f) then (None, w)
    else
      var after := w.(clock := w.clock + 1);
      match p.logs(w.clock, first, last)
      case RpcError => (None, after)
      case Rows(rows) =>
        if exists i :: 0 <= i < |rows| && !Allows(f, rows[i]) then (None, after)
        else
          var (verified, end) := CanonicalAll(p, rows, first, last, after);
          if verified.None? then (None, end)
          else
            var ordered := Sort(verified.value, InOrder);
            if |LocatorSet(ordered)| != |ordered| then (None, end) else (Some(ordered), end)
  }

  // ---- bisection and chunks ----

  function Adaptive(p: Provider, f: Filter, first: nat, last: nat, w: World): Outcome
    requires first <= last
    decreases last - first
  {
    var (got, after) := Logs(p, f, first, last, w);
    var here := [Attempt(first, last, got.Some?)];
    if got.Some? then Outcome(got, after, here)
    else if first == last then Outcome(None, after, here)
    else
      var middle := (first + last) / 2;
      var left := Adaptive(p, f, first, middle, after);
      if left.logs.None? then Outcome(None, left.world, here + left.attempts)
      else
        var right := Adaptive(p, f, middle + 1, last, left.world);
        Outcome(if right.logs.None? then None else Some(left.logs.value + right.logs.value),
                right.world, here + left.attempts + right.attempts)
  }

  function ChunkEnd(first: nat, last: nat): (end: nat)
    requires first <= last
    ensures first <= end <= last && end < first + SCAN_CHUNK_BLOCKS
    ensures end == last || end == first + SCAN_CHUNK_BLOCKS - 1
  {
    if last <= first + SCAN_CHUNK_BLOCKS - 1 then last else first + SCAN_CHUNK_BLOCKS - 1
  }

  /** The scan of one range that fits a chunk. */
  type RangeScan = (nat, nat, World) -> Outcome

  function Ranges(p: Provider, f: Filter): RangeScan {
    (first: nat, last: nat, w: World) =>
      if first <= last then Adaptive(p, f, first, last, w) else Outcome(Some([]), w, [])
  }

  /** Chunk by chunk, until one raises. */
  function Chunks(range: RangeScan, first: nat, last: nat, w: World): Outcome
    decreases last + 1 - first
  {
    if last < first then Outcome(Some([]), w, [])
    else
      var end := ChunkEnd(first, last);
      var chunk := range(first, end, w);
      if chunk.logs.None? then chunk
      else
        var rest := Chunks(range, end + 1, last, chunk.world);
        Outcome(if rest.logs.None? then None else Some(chunk.logs.value + rest.logs.value),
                rest.world, chunk.attempts + rest.attempts)
  }

  function Scan(p: Provider, f: Filter, first: nat, last: nat, w: World): Outcome {
    Chunks(Ranges(p, f), first, last, w)
  }

  // ---- sound against any provider ----

  function Sent(log: Log): RawLog {
    RawLog(Some(false), Some(log.address), seq(|log.topics|, i requires 0 <= i < |log.topics| => Some(log.topics[i])),
           Some(log.data), Some(log.block), Some(log.blockHash), Some(log.transactionHash),
           Some(log.transaction), Some(log.index))
  }

  ghost predicate KeepsHeaders(w: World, w': World) {
    forall b :: b in w.headers ==> b in w'.headers && w'.headers[b] == w.headers[b]
  }

  /** The log lies in the range, passes the filter and carries the hash kept for its block. */
  ghost predicate Sound(f: Filter, first: nat, last: nat, w: World, log: Log) {
    && first <= log.block <= last
    && Allows(f, Sent(log))
    && log.block in w.headers && w.headers[log.block] == log.blockHash
  }

  ghost predicate AllSound(f: Filter, first: nat, last: nat, w: World, logs: seq<Log>) {
    forall i :: 0 <= i < |logs| ==> Sound(f, first, last, w, logs[i])
  }

  /** Checked rows are the rows sent, in range, with the hash of the header kept for their block. */
  lemma {:induction false} CanonicalRows(p: Provider, rows: seq<RawLog>, first: nat, last: nat, w: World)
    ensures var (logs, w') := CanonicalAll(p, rows, first, last, w);
      KeepsHeaders(w, w') && (logs.Some? ==>
        |logs.value| == |rows| && forall i :: 0 <= i < |rows| ==>
          Sent(logs.value[i]) == rows[i] && first <= logs.value[i].block <= last
          && logs.value[i].block in w'.headers && w'.headers[logs.value[i].block] == logs.value[i].blockHash)
  {
    if rows != [] {
      var (log, w1) := Canonical(p, rows[0], first, last, w);
      if log.Some? {
        CanonicalRows(p, rows[1..], first, last, w1);
        var (rest, w2) := CanonicalAll(p, rows[1..], first, last, w1);
        if rest.Some? {
          var logs := [log.value] + rest.value;
          forall i | 0 <= i < |rows|
            ensures Sent(logs[i]) == rows[i] && first <= logs[i].block <= last
                    && logs[i].block in w2.headers && w2.headers[logs[i].block] == logs[i].blockHash
          {
            if i > 0 { assert logs[i] == rest.value[i - 1] && rows[i] == rows[1..][i - 1]; }
          }
        }
      }
    }
  }

  /** As many locators as logs means no two logs share one. */
  lemma {:induction false} DistinctLocators(logs: seq<Log>)
    requires Sorted(logs, InOrder) && |LocatorSet(logs)| == |logs|
    ensures StrictlySorted(logs, InOrder)
  {
    var locators := seq(|logs|, i requires 0 <= i < |logs| => Locator(logs[i]));
    forall l ensures l in Elements(locators) <==> l in LocatorSet(logs) {
      if l in locators { var i :| 0 <= i < |locators| && locators[i] == l; }
      if l in LocatorSet(logs) {
        var log :| log in logs && Locator(log) == l;
        var i :| 0 <= i < |logs| && logs[i] == log;
        assert locators[i] == l;
      }
    }
    assert Elements(locators) == LocatorSet(logs);
    DistinctCount(locators);
    forall i, j | 0 <= i < j < |logs| ensures InOrder(logs[i], logs[j]) && !InOrder(logs[j], logs[i]) {
      assert locators[i] != locators[j];
    }
  }

  /** One verified request delivers exactly the rows sent, in order, whatever they are. */
  lemma {:induction false} LogsAreSound(p: Provider, f: Filter, first: nat, last: nat, w: World)
    ensures var (logs, w') := Logs(p, f, first, last, w);
      KeepsHeaders(w, w') && (logs.Some? ==>
        StrictlySorted(logs.value, InOrder) && AllSound(f, first, last, w', logs.value)
        && p.logs(w.clock, first, last).Rows?
        && forall log :: log in logs.value <==> Sent(log) in p.logs(w.clock, first, last).rows)
  {
    var (logs, w') := Logs(p, f, first, last, w);
    if FilterIsWellFormed(f) && p.logs(w.clock, first, last).Rows? {
      var rows, after := p.logs(w.clock, first, last).rows, w.(clock := w.clock + 1);
      CanonicalRows(p, rows, first, last, after);
      if logs.Some? {
        var verified := CanonicalAll(p, rows, first, last, after).0.value;
        SortSorts(verified, InOrder);
        SortKeepsMembers(verified, InOrder);
        DistinctLocators(logs.value);
        forall i | 0 <= i < |logs.value| ensures Sound(f, first, last, w', logs.value[i]) {
          assert logs.value[i] in verified;
          var k :| 0 <= k < |verified| && verified[k] == logs.value[i];
          assert Allows(f, rows[k]);
        }
        SentMembers(verified, rows);
      }
    }
  }

  lemma {:induction false} SentIsInjective(a: Log, b: Log)
    requires Sent(a) == Sent(b)
    ensures a == b
  {
    forall i | 0 <= i < |a.topics| ensures a.topics[i] == b.topics[i] {
      assert Sent(a).topics[i] == Sent(b).topics[i];
    }
    assert |Sent(a).topics| == |Sent(b).topics|;
    assert a.topics == b.topics;
  }

  lemma {:induction false} SentMembers(logs: seq<Log>, rows: seq<RawLog>)
    requires |logs| == |rows| && forall i :: 0 <= i < |rows| ==> Sent(logs[i]) == rows[i]
    ensures forall log :: log in logs <==> Sent(log) in rows
  {
    forall log: Log ensures log in logs <==> Sent(log) in rows {
      if log in logs { var i :| 0 <= i < |logs| && logs[i] == log; }
      if Sent(log) in rows {
        var i :| 0 <= i < |rows| && rows[i] == Sent(log);
        SentIsInjective(log, logs[i]);
      }
    }
  }

  /** Logs of consecutive ranges, one after the other, stay in strict order. */
  lemma {:induction false} JoinStaysOrdered(f: Filter, a: nat, m: nat, b: nat, w: World, left: seq<Log>,
                                            right: seq<Log>)
    requires AllSound(f, a, m, w, left) && AllSound(f, m + 1, b, w, right)
    requires StrictlySorted(left, InOrder) && StrictlySorted(right, InOrder)
    ensures StrictlySorted(left + right, InOrder)
  {
    var all := left + right;
    forall i, j | 0 <= i < j < |all| ensures InOrder(all[i], all[j]) && !InOrder(all[j], all[i]) {
      if i < |left| <= j {
        assert Sound(f, a, m, w, left[i]) && Sound(f, m + 1, b, w, right[j - |left|]);
      }
    }
  }

  ghost predicate SoundOutcome(f: Filter, first: nat, last: nat, w: World, o: Outcome) {
    && KeepsHeaders(w, o.world)
    && (o.logs.Some? ==>
          StrictlySorted(o.logs.value, InOrder) && AllSound(f, first, last, o.world, o.logs.value))
  }

  lemma {:induction false} JoinIsSound(f: Filter, a: nat, m: nat, b: nat, w: World, left: Outcome, right: Outcome,
                                       o: Outcome)
    requires a <= m + 1 && m <= b && left.logs.Some? && right.logs.Some?
    requires SoundOutcome(f, a, m, w, left) && SoundOutcome(f, m + 1, b, left.world, right)
    requires o.world == right.world && o.logs == Some(left.logs.value + right.logs.value)
    ensures SoundOutcome(f, a, b, w, o)
  {
    JoinStaysOrdered(f, a, m, b, right.world, left.logs.value, right.logs.value);
  }

  lemma {:induction false} AdaptiveIsSound(p: Provider, f: Filter, first: nat, last: nat, w: World)
    requires first <= last
    ensures SoundOutcome(f, first, last, w, Adaptive(p, f, first, last, w))
    decreases last - first
  {
    LogsAreSound(p, f, first, last, w);
    var (got, after) := Logs(p, f, first, last, w);
    if got.None? && first < last {
      var middle := (first + last) / 2;
      AdaptiveIsSound(p, f, first, middle, after);
      var left := Adaptive(p, f, first, middle, after);
      if left.logs.Some? {
        AdaptiveIsSound(p, f, middle + 1, last, left.world);
        var right := Adaptive(p, f, middle + 1, last, left.world);
        if right.logs.Some? {
          JoinIsSound(f, first, middle, last, after, left, right, Adaptive(p, f, first, last, w));
        }
      }
    }
  }

  ghost predicate RangeIsSound(range: RangeScan, f: Filter, first: nat, last: nat, w: World) {
    first <= last ==> SoundOutcome(f, first, last, w, range(first, last, w))
  }

  lemma {:induction false} ChunksAreSound(range: RangeScan, f: Filter, first: nat, last: nat, w: World)
    requires forall a, b, w' :: RangeIsSound(range, f, a, b, w')
    ensures SoundOutcome(f, first, last, w, Chunks(range, first, last, w))
    decreases last + 1 - first
  {
    if first <= last {
      var end := ChunkEnd(first, last);
      assert RangeIsSound(range, f, first, end, w);
      var chunk := range(first, end, w);
      if chunk.logs.Some? {
        var rest := Chunks(range, end + 1, last, chunk.world);
        ChunksAreSound(range, f, end + 1, last, chunk.world);
        if rest.logs.Some? { JoinIsSound(f, first, end, last, w, chunk, rest, Chunks(range, first, last, w)); }
      }
    }
  }

  /**
   Whatever the provider answers, a scan that raises nothing delivers logs in strictly increasing
   (block, transaction, log) order, all in range and allowed by the filter, and all logs of one block
   carry one and the same block hash.
   */
  lemma {:induction false} ScanIsSound(p: Provider, f: Filter, first: nat, last: nat, w: World)
    ensures SoundOutcome(f, first, last, w, Scan(p, f, first, last, w))
  {
    forall a: nat, b: nat, w': World ensures RangeIsSound(Ranges(p, f), f, a, b, w') {
      if a <= b { AdaptiveIsSound(p, f, a, b, w'); }
    }
    ChunksAreSound(Ranges(p, f), f, first, last, w);
  }

  lemma {:induction false} OneHashPerBlock(p: Provider, f: Filter, first: nat, last: nat, w: World, i: nat, j: nat)
    requires Scan(p, f, first, last, w).logs.Some?
    requires i < |Scan(p, f, first, last, w).logs.value| && j < |Scan(p, f, first, last, w).logs.value|
    requires Scan(p, f, first, last, w).logs.value[i].block == Scan(p, f, first, last, w).logs.value[j].block
    ensures Scan(p, f, first, last, w).logs.value[i].blockHash == Scan(p, f, first, last, w).logs.value[j].blockHash
  {
    ScanIsSound(p, f, first, last, w);
    var o := Scan(p, f, first, last, w);
    assert Sound(f, first, last, o.world, o.logs.value[i]) && Sound(f, first, last, o.world, o.logs.value[j]);
  }

  // ---- complete against a provider whose answers are complete ----

  ghost predicate InSlice(chain: seq<Log>, first: nat, last: nat, log: Log) {
    log in chain && first <= log.block <= last
  }

  ghost predicate AnswerIsComplete(p: Provider, chain: seq<Log>, n: nat, first: nat, last: nat) {
    p.logs(n, first, last).Rows? ==>
      forall log :: Sent(log) in p.logs(n, first, last).rows <==> InSlice(chain, first, last, log)
  }

  /** Every request fails or returns the chain's logs of its range, repeated or in any order. */
  ghost predicate HonestOrFailing(p: Provider, chain: seq<Log>) {
    forall n, first, last :: AnswerIsComplete(p, chain, n, first, last)
  }

  ghost predicate Holds(chain: seq<Log>, first: nat, last: nat, logs: seq<Log>) {
    forall log :: log in logs <==> InSlice(chain, first, last, log)
  }

  lemma {:induction false} HoldsJoins(chain: seq<Log>, first: nat, middle: nat, last: nat, left: seq<Log>,
                                      right: seq<Log>)
    requires first <= middle + 1 && middle <= last
    requires Holds(chain, first, middle, left) && Holds(chain, middle + 1, last, right)
    ensures Holds(chain, first, last, left + right)
  {
    forall log ensures log in left + right <==> InSlice(chain, first, last, log) {
      assert log in left <==> InSlice(chain, first, middle, log);
      assert log in right <==> InSlice(chain, middle + 1, last, log);
    }
  }

  lemma {:induction false} AdaptiveIsComplete(p: Provider, f: Filter, first: nat, last: nat, w: World, chain: seq<Log>)
    requires first <= last && HonestOrFailing(p, chain)
    requires Adaptive(p, f, first, last, w).logs.Some?
    ensures Holds(chain, first, last, Adaptive(p, f, first, last, w).logs.value)
    decreases last - first
  {
    LogsAreSound(p, f, first, last, w);
    var (got, after) := Logs(p, f, first, last, w);
    if got.Some? {
      assert AnswerIsComplete(p, chain, w.clock, first, last);
    } else {
      var middle := (first + last) / 2;
      AdaptiveIsComplete(p, f, first, middle, after, chain);
      var left := Adaptive(p, f, first, middle, after);
      AdaptiveIsComplete(p, f, middle + 1, last, left.world, chain);
      HoldsJoins(chain, first, middle, last, left.logs.value, Adaptive(p, f, middle + 1, last, left.world).logs.value);
    }
  }

  ghost predicate RangeHolds(range: RangeScan, chain: seq<Log>, first: nat, last: nat, w: World) {
    first <= last && range(first, last, w).logs.Some? ==> Holds(chain, first, last, range(first, last, w).logs.value)
  }

  lemma {:induction false} ChunksHoldSlice(range: RangeScan, first: nat, last: nat, w: World, chain: seq<Log>)
    requires forall a, b, w' :: RangeHolds(range, chain, a, b, w')
    requires Chunks(range, first, last, w).logs.Some?
    ensures Holds(chain, first, last, Chunks(range, first, last, w).logs.value)
    decreases last + 1 - first
  {
    if first <= last {
      var end := ChunkEnd(first, last);
      assert RangeHolds(range, chain, first, end, w);
      var chunk := range(first, end, w);
      ChunksHoldSlice(range, end + 1, last, chunk.world, chain);
      HoldsJoins(chain, first, end, last, chunk.logs.value, Chunks(range, end + 1, last, chunk.world).logs.value);
    }
  }

  function Slice(chain: seq<Log>, first: nat, last: nat): seq<Log> {
    if chain == [] then []
    else (if first <= chain[0].block <= last then [chain[0]] else []) + Slice(chain[1..], first, last)
  }

  lemma {:induction false} SliceMembers(chain: seq<Log>, first: nat, last: nat)
    ensures Holds(chain, first, last, Slice(chain, first, last))
    ensures StrictlySorted(chain, InOrder) ==> StrictlySorted(Slice(chain, first, last), InOrder)
  {
    if chain != [] {
      SliceMembers(chain[1..], first, last);
      var rest := Slice(chain[1..], first, last);
      assert chain == [chain[0]] + chain[1..];
      if StrictlySorted(chain, InOrder) {
        assert StrictlySorted(chain[1..], InOrder);
        forall j | 0 <= j < |rest| ensures InOrder(chain[0], rest[j]) && !InOrder(rest[j], chain[0]) {
          assert InSlice(chain[1..], first, last, rest[j]);
          var k :| 0 <= k < |chain[1..]| && chain[1..][k] == rest[j];
          assert chain[k + 1] == rest[j];
        }
      }
    }
  }

  /**
   If each request fails or tells the truth, a scan that raises nothing returns exactly the chain's
   logs of the range, in chain order, wherever the failures fell and however ranges were split.
   */
  lemma {:induction false} ScanIsComplete(p: Provider, f: Filter, first: nat, last: nat, w: World, chain: seq<Log>)
    requires HonestOrFailing(p, chain) && StrictlySorted(chain, InOrder)
    requires Scan(p, f, first, last, w).logs.Some?
    ensures Scan(p, f, first, last, w).logs.value == Slice(chain, first, last)
  {
    ScanIsSound(p, f, first, last, w);
    forall a: nat, b: nat, w': World ensures RangeHolds(Ranges(p, f), chain, a, b, w') {
      if a <= b && Adaptive(p, f, a, b, w').logs.Some? { AdaptiveIsComplete(p, f, a, b, w', chain); }
    }
    ChunksHoldSlice(Ranges(p, f), first, last, w, chain);
    SliceMembers(chain, first, last);
    var got := Scan(p, f, first, last, w).logs.value;
    forall x ensures x in got <==> x in Slice(chain, first, last) {
      assert x in got <==> InSlice(chain, first, last, x);
    }
    OrderedByMembers(got, Slice(chain, first, last), InOrder);
  }

  // ---- when it raises, and how many requests it makes ----

  function Succeeded(attempts: seq<Attempt>): seq<Attempt> {
    if attempts == [] then []
    else if attempts[0].ok then [attempts[0]] + Succeeded(attempts[1..])
    else Succeeded(attempts[1..])
  }

  lemma {:induction false} SucceededJoins(a: seq<Attempt>, b: seq<Attempt>)
    ensures Succeeded(a + b) == Succeeded(a) + Succeeded(b)
  {
    if a == [] {
      assert a + b == b;
    } else {
      SucceededJoins(a[1..], b);
      assert (a + b)[0] == a[0] && (a + b)[1..] == a[1..] + b;
      if a[0].ok {
        assert [a[0]] + (Succeeded(a[1..]) + Succeeded(b)) == ([a[0]] + Succeeded(a[1..])) + Succeeded(b);
      }
    }
  }

  /** The ranges follow each other without gap or overlap from the first block to the last. */
  ghost predicate Tile(ranges: seq<Attempt>, first: int, last: int) {
    if ranges == [] then last == first - 1
    else ranges[0].first == first <= ranges[0].last && Tile(ranges[1..], ranges[0].last + 1, last)
  }

  lemma {:induction false} TilesJoin(a: seq<Attempt>, b: seq<Attempt>, first: int, middle: int, last: int)
    requires Tile(a, first, middle) && Tile(b, middle + 1, last)
    ensures Tile(a + b, first, last)
  {
    if a == [] {
      assert a + b == b;
    } else {
      TilesJoin(a[1..], b, a[0].last + 1, middle, last);
      assert (a + b)[1..] == a[1..] + b;
    }
  }

  ghost predicate FailedBlock(attempt: Attempt) {
    !attempt.ok && attempt.first == attempt.last
  }

  ghost predicate NoFailedBlock(attempts: seq<Attempt>) {
    forall i :: 0 <= i < |attempts| ==> !FailedBlock(attempts[i])
  }

  ghost predicate EndsAtFailedBlock(attempts: seq<Attempt>) {
    attempts != [] && FailedBlock(attempts[|attempts| - 1]) && NoFailedBlock(attempts[..|attempts| - 1])
  }

  /** Either no request for a single block failed and the kept ranges tile, or the last request is the one. */
  ghost predicate Asked(first: nat, last: nat, o: Outcome) {
    if o.logs.Some? then NoFailedBlock(o.attempts) && Tile(Succeeded(o.attempts), first, last)
    else EndsAtFailedBlock(o.attempts)
  }

  lemma {:induction false} AskedLater(before: seq<Attempt>, attempts: seq<Attempt>)
    requires NoFailedBlock(before)
    ensures NoFailedBlock(attempts) ==> NoFailedBlock(before + attempts)
    ensures EndsAtFailedBlock(attempts) ==> EndsAtFailedBlock(before + attempts)
  {
    var all := before + attempts;
    if EndsAtFailedBlock(attempts) {
      assert all[|all| - 1] == attempts[|attempts| - 1];
      assert all[..|all| - 1] == before + attempts[..|attempts| - 1];
    }
  }

  /** Two consecutive parts, the second asked for only if the first succeeded. */
  lemma {:induction false} AskedInTurn(first: nat, middle: nat, last: nat, left: Outcome, right: Outcome, o: Outcome)
    requires first <= middle <= last
    requires left.logs.Some? && Asked(first, middle, left) && Asked(middle + 1, last, right)
    requires o.attempts == left.attempts + right.attempts && (o.logs.Some? <==> right.logs.Some?)
    ensures Asked(first, last, o)
  {
    AskedLater(left.attempts, right.attempts);
    SucceededJoins(left.attempts, right.attempts);
    if right.logs.Some? {
      TilesJoin(Succeeded(left.attempts), Succeeded(right.attempts), first, middle, last);
    }
  }

  /** A failed request for more than one block, and then the rest. */
  lemma {:induction false} AskedAgain(first: nat, last: nat, here: Attempt, rest: Outcome, o: Outcome)
    requires !here.ok && !FailedBlock(here) && Asked(first, last, rest)
    requires o.attempts == [here] + rest.attempts && (o.logs.Some? <==> rest.logs.Some?)
    ensures Asked(first, last, o)
  {
    AskedLater([here], rest.attempts);
    assert ([here] + rest.attempts)[1..] == rest.attempts;
    assert Succeeded(o.attempts) == Succeeded(rest.attempts);
  }

  lemma {:induction false} OneRequestAsks(p: Provider, f: Filter, first: nat, last: nat, w: World)
    requires first <= last && (first == last || Logs(p, f, first, last, w).0.Some?)
    ensures Asked(first, last, Adaptive(p, f, first, last, w))
  {
    var here := Attempt(first, last, Logs(p, f, first, last, w).0.Some?);
    assert [here][1..] == [] && [here][..0] == [];
  }

  lemma {:induction false} AdaptiveAsks(p: Provider, f: Filter, first: nat, last: nat, w: World)
    requires first <= last
    ensures Asked(first, last, Adaptive(p, f, first, last, w))
    decreases last - first
  {
    var o := Adaptive(p, f, first, last, w);
    var (got, after) := Logs(p, f, first, last, w);
    var here := Attempt(first, last, got.Some?);
    if got.Some? || first == last {
      OneRequestAsks(p, f, first, last, w);
    } else {
      var middle := (first + last) / 2;
      AdaptiveAsks(p, f, first, middle, after);
      var left := Adaptive(p, f, first, middle, after);
      if left.logs.None? {
        AskedAgain(first, last, here, left, o);
      } else {
        AdaptiveAsks(p, f, middle + 1, last, left.world);
        var right := Adaptive(p, f, middle + 1, last, left.world);
        var both := Outcome(right.logs, right.world, left.attempts + right.attempts);
        AskedInTurn(first, middle, last, left, right, both);
        assert o.attempts == [here] + both.attempts;
        AskedAgain(first, last, here, both, o);
      }
    }
  }

  ghost predicate RangeAsks(range: RangeScan, first: nat, last: nat, w: World) {
    first <= last ==> Asked(first, last, range(first, last, w))
  }

  lemma {:induction false} ChunksAsk(range: RangeScan, first: nat, last: nat, w: World)
    requires first <= last + 1 && forall a, b, w' :: RangeAsks(range, a, b, w')
    ensures Asked(first, last, Chunks(range, first, last, w))
    decreases last + 1 - first
  {
    if first <= last {
      var end := ChunkEnd(first, last);
      assert RangeAsks(range, first, end, w);
      var chunk := range(first, end, w);
      if chunk.logs.Some? {
        ChunksAsk(range, end + 1, last, chunk.world);
        AskedInTurn(first, end, last, chunk, Chunks(range, end + 1, last, chunk.world), Chunks(range, first, last, w));
      }
    }
  }

  /**
   A scan raises exactly when a request for a single block failed, at that request; otherwise the
   successful requests tile the whole range.
   */
  lemma {:induction false} ScanRaisesExactly(p: Provider, f: Filter, first: nat, last: nat, w: World)
    requires first <= last + 1
    ensures Asked(first, last, Scan(p, f, first, last, w))
  {
    forall a: nat, b: nat, w': World ensures RangeAsks(Ranges(p, f), a, b, w') {
      if a <= b { AdaptiveAsks(p, f, a, b, w'); }
    }
    ChunksAsk(Ranges(p, f), first, last, w);
  }

  /** A range of n blocks costs at most 2n - 1 requests for logs; one that succeeds costs 2s - 1, s the ranges kept. */
  lemma {:induction false} AdaptiveCost(p: Provider, f: Filter, first: nat, last: nat, w: World)
    requires first <= last
    ensures |Adaptive(p, f, first, last, w).attempts| <= 2 * (last - first) + 1
    ensures Adaptive(p, f, first, last, w).logs.Some? ==>
      |Adaptive(p, f, first, last, w).attempts| == 2 * |Succeeded(Adaptive(p, f, first, last, w).attempts)| - 1
    decreases last - first
  {
    var (got, after) := Logs(p, f, first, last, w);
    var here := [Attempt(first, last, got.Some?)];
    assert here[1..] == [];
    if got.None? && first < last {
      var middle := (first + last) / 2;
      AdaptiveCost(p, f, first, middle, after);
      var left := Adaptive(p, f, first, middle, after);
      if left.logs.Some? {
        AdaptiveCost(p, f, middle + 1, last, left.world);
        var right := Adaptive(p, f, middle + 1, last, left.world);
        SucceededJoins(here, left.attempts);
        SucceededJoins(here + left.attempts, right.attempts);
      }
    }
  }

  ghost predicate RangeIsCheap(range: RangeScan, first: nat, last: nat, w: World) {
    first <= last ==> |range(first, last, w).attempts| <= 2 * (last + 1 - first)
  }

  lemma {:induction false} ChunksCost(range: RangeScan, first: nat, last: nat, w: World)
    requires first <= last + 1 && forall a, b, w' :: RangeIsCheap(range, a, b, w')
    ensures |Chunks(range, first, last, w).attempts| <= 2 * (last + 1 - first)
    decreases last + 1 - first
  {
    if first <= last {
      var end := ChunkEnd(first, last);
      assert RangeIsCheap(range, first, end, w);
      ChunksCost(range, end + 1, last, range(first, end, w).world);
    }
  }

  /** A whole scan makes at most two requests for logs per block. */
  lemma {:induction false} ScanCost(p: Provider, f: Filter, first: nat, last: nat, w: World)
    requires first <= last + 1
    ensures |Scan(p, f, first, last, w).attempts| <= 2 * (last + 1 - first)
  {
    forall a: nat, b: nat, w': World ensures RangeIsCheap(Ranges(p, f), a, b, w') {
      if a <= b { AdaptiveCost(p, f, a, b, w'); }
    }
    ChunksCost(Ranges(p, f), first, last, w);
  }

  // ---- requests of both kinds ----

  /** Requests made, less the headers kept from them: what a header that is kept costs is paid for once. */
  function Spent(w: World): int {
    w.clock - |w.headers|
  }

  ghost predicate KeptInRange(w: World, w': World, first: nat, last: nat) {
    forall b :: b in w'.headers ==> b in w.headers || first <= b <= last
  }

  lemma {:induction false} RowsSpend(p: Provider, rows: seq<RawLog>, first: nat, last: nat, w: World)
    ensures var (logs, w') := CanonicalAll(p, rows, first, last, w);
      Spent(w') <= Spent(w) + (if logs.None? then 1 else 0) && KeptInRange(w, w', first, last)
  {
    if rows != [] {
      var (log, w1) := Canonical(p, rows[0], first, last, w);
      if log.Some? { RowsSpend(p, rows[1..], first, last, w1); }
    }
  }

  lemma {:induction false} LogsSpend(p: Provider, f: Filter, first: nat, last: nat, w: World)
    ensures var (logs, w') := Logs(p, f, first, last, w);
      Spent(w') <= Spent(w) + (if logs.None? then 2 else 1) && KeptInRange(w, w', first, last)
  {
    if FilterIsWellFormed(f) && p.logs(w.clock, first, last).Rows? {
      RowsSpend(p, p.logs(w.clock, first, last).rows, first, last, w.(clock := w.clock + 1));
    }
  }

  ghost predicate SpendsAtMost(w: World, w': World, first: nat, last: nat, most: int) {
    Spent(w') <= Spent(w) + most && KeptInRange(w, w', first, last)
  }

  lemma {:induction false} HalvesSpend(w: World, after: World, w1: World, w2: World, first: nat, middle: nat, last: nat)
    requires first <= middle < last && SpendsAtMost(w, after, first, last, 2)
    requires SpendsAtMost(after, w1, first, middle, 4 * (middle - first) + 2)
    requires w2 == w1 || SpendsAtMost(w1, w2, middle + 1, last, 4 * (last - middle - 1) + 2)
    ensures SpendsAtMost(w, w2, first, last, 4 * (last - first) + 2)
  {
  }

  lemma {:induction false} OneRequestSpends(p: Provider, f: Filter, first: nat, last: nat, w: World)
    requires first <= last
    ensures var (got, after) := Logs(p, f, first, last, w);
      SpendsAtMost(w, after, first, last, 2)
      && (got.Some? || first == last ==> Adaptive(p, f, first, last, w).world == after)
  {
    LogsSpend(p, f, first, last, w);
  }

  lemma {:induction false} SplitWorld(p: Provider, f: Filter, first: nat, middle: nat, last: nat, w: World,
                                      after: World)
    requires first < last && middle == (first + last) / 2 && Logs(p, f, first, last, w) == (None, after)
    ensures var left := Adaptive(p, f, first, middle, after);
      Adaptive(p, f, first, last, w).world
      == if left.logs.Some? then Adaptive(p, f, middle + 1, last, left.world).world else left.world
  {
  }

  lemma {:induction false} AdaptiveSpends(p: Provider, f: Filter, first: nat, last: nat, w: World)
    requires first <= last
    ensures SpendsAtMost(w, Adaptive(p, f, first, last, w).world, first, last, 4 * (last - first) + 2)
    decreases last - first
  {
    OneRequestSpends(p, f, first, last, w);
    var (got, after) := Logs(p, f, first, last, w);
    if got.None? && first < last {
      var middle := (first + last) / 2;
      AdaptiveSpends(p, f, first, middle, after);
      var left := Adaptive(p, f, first, middle, after);
      if left.logs.Some? { AdaptiveSpends(p, f, middle + 1, last, left.world); }
      SplitWorld(p, f, first, middle, last, w, after);
      HalvesSpend(w, after, left.world, Adaptive(p, f, first, last, w).world, first, middle, last);
    }
  }

  ghost predicate RangeSpends(range: RangeScan, first: nat, last: nat, w: World) {
    first <= last ==> SpendsAtMost(w, range(first, last, w).world, first, last, 4 * (last + 1 - first))
  }

  lemma {:induction false} ChunksSpend(range: RangeScan, first: nat, last: nat, w: World)
    requires first <= last + 1 && forall a, b, w' :: RangeSpends(range, a, b, w')
    ensures SpendsAtMost(w, Chunks(range, first, last, w).world, first, last, 4 * (last + 1 - first))
    decreases last + 1 - first
  {
    if first <= last {
      var end := ChunkEnd(first, last);
      assert RangeSpends(range, first, end, w);
      var chunk := range(first, end, w);
      if chunk.logs.Some? {
        ChunksSpend(range, end + 1, last, chunk.world);
      }
    }
  }

  function Blocks(first: nat, n: nat): set<nat> {
    if n == 0 then {} else Blocks(first, n - 1) + {first + n - 1}
  }

  lemma {:induction false} BlocksMembers(first: nat, n: nat)
    ensures forall b :: b in Blocks(first, n) <==> first <= b < first + n
    ensures |Blocks(first, n)| == n
  {
    if n > 0 { BlocksMembers(first, n - 1); }
  }

  lemma {:induction false} SubsetSize(a: set<nat>, b: set<nat>)
    requires a <= b
    ensures |a| <= |b|
  {
    assert b == a + (b - a);
    DisjointUnionSize(a, b - a);
  }

  lemma {:induction false} KeptHeaders(w: World, w': World, first: nat, last: nat)
    requires first <= last + 1 && KeptInRange(w, w', first, last)
    ensures |w'.headers| <= |w.headers| + (last + 1 - first)
  {
    var n := last + 1 - first;
    BlocksMembers(first, n);
    SubsetSize(w'.headers.Keys, w.headers.Keys + Blocks(first, n));
  }

  /** Requests for logs and for headers together, a whole scan makes at most five per block. */
  lemma {:induction false} ScanRequests(p: Provider, f: Filter, first: nat, last: nat, w: World)
    requires first <= last + 1
    ensures Scan(p, f, first, last, w).world.clock <= w.clock + 5 * (last + 1 - first)
  {
    forall a: nat, b: nat, w': World ensures RangeSpends(Ranges(p, f), a, b, w') {
      if a <= b { AdaptiveSpends(p, f, a, b, w'); }
    }
    ChunksSpend(Ranges(p, f), first, last, w);
    KeptHeaders(w, Scan(p, f, first, last, w).world, first, last);
  }

  ghost predicate BlockAnswers(p: Provider, f: Filter, block: nat, w: World) {
    Logs(p, f, block, block, w).0.Some?
  }

  lemma {:induction false} AdaptiveSucceeds(p: Provider, f: Filter, low: nat, high: nat, first: nat, last: nat,
                                            w: World)
    requires low <= first <= last <= high
    requires forall block, w' :: low <= block <= high ==> BlockAnswers(p, f, block, w')
    ensures Adaptive(p, f, first, last, w).logs.Some?
    decreases last - first
  {
    var (got, after) := Logs(p, f, first, last, w);
    if first == last {
      assert BlockAnswers(p, f, first, w);
    } else if got.None? {
      var middle := (first + last) / 2;
      AdaptiveSucceeds(p, f, low, high, first, middle, after);
      AdaptiveSucceeds(p, f, low, high, middle + 1, last, Adaptive(p, f, first, middle, after).world);
    }
  }

  ghost predicate RangeAnswers(range: RangeScan, first: nat, last: nat, w: World) {
    first <= last ==> range(first, last, w).logs.Some?
  }

  lemma {:induction false} ChunksSucceed(range: RangeScan, first: nat, last: nat, w: World)
    requires forall a, b, w' :: RangeAnswers(range, a, b, w')
    ensures Chunks(range, first, last, w).logs.Some?
    decreases last + 1 - first
  {
    if first <= last {
      var end := ChunkEnd(first, last);
      assert RangeAnswers(range, first, end, w);
      ChunksSucceed(range, end + 1, last, range(first, end, w).world);
    }
  }

  /** If requests for one block always work, the scan succeeds however larger ranges fail. */
  lemma {:induction false} ScanSucceeds(p: Provider, f: Filter, first: nat, last: nat, w: World)
    requires forall block, w' :: BlockAnswers(p, f, block, w')
    ensures Scan(p, f, first, last, w).logs.Some?
  {
    forall a: nat, b: nat, w': World ensures RangeAnswers(Ranges(p, f), a, b, w') {
      if a <= b { AdaptiveSucceeds(p, f, a, b, a, b, w'); }
    }
    ChunksSucceed(Ranges(p, f), first, last, w);
  }

  // ---- what the checks mean ----

  lemma {:induction false} HexDigitsExactly(c: char)
    ensures IsHexDigit(c) <==> c in "0123456789abcdef"
  {
  }

  lemma {:induction false} HexExactly(text: string, digits: nat)
    ensures IsHex(text, digits) <==>
            |text| == digits + 2 && text[..2] == "0x" && forall i :: 2 <= i < |text| ==> text[i] in "0123456789abcdef"
  {
    if |text| >= 2 {
      assert text[..2] == [text[0], text[1]];
      forall i | 2 <= i < |text| ensures IsHexDigit(text[i]) <==> text[i] in "0123456789abcdef" {
        HexDigitsExactly(text[i]);
      }
    }
  }

  /** A filter that asks for nothing lets every row pass that has an address and no malformed topic. */
  lemma {:induction false} EmptyFilterAllows(row: RawLog)
    ensures Allows(Filter(None, []), row) <==> row.address.Some? && None !in row.topics
  {
    if None !in row.topics {
      forall i | 0 <= i < |row.topics| ensures row.topics[i].Some? {
        assert row.topics[i] in row.topics;
      }
    }
  }

  lemma {:induction false} AddressFilterAllows(address: string, topics: seq<Option<set<string>>>, row: RawLog)
    ensures Allows(Filter(Some(address), topics), row) <==>
            row.address == Some(address) && Allows(Filter(None, topics), row)
  {
  }

  /** Each further entry of a filter asks for one topic more, and for one of its alternatives if it has any. */
  lemma {:induction false} LongerFilterAllows(f: Filter, entry: Option<set<string>>, row: RawLog)
    ensures Allows(f.(topics := f.topics + [entry]), row) <==>
            Allows(f, row) && |row.topics| > |f.topics|
            && (entry.Some? ==> row.topics[|f.topics|].Some? && row.topics[|f.topics|].value in entry.value)
  {
    var longer := f.(topics := f.topics + [entry]);
    assert longer.topics[|f.topics|] == entry;
    assert forall i :: 0 <= i < |f.topics| ==> longer.topics[i] == f.topics[i];
  }

  /** Further topics never make a row fail a filter. */
  lemma {:induction false} AllowedStaysAllowed(f: Filter, row: RawLog, more: seq<Option<string>>)
    requires Allows(f, row) && None !in more
    ensures Allows(f, row.(topics := row.topics + more))
  {
    forall i | 0 <= i < |more| ensures more[i].Some? {
      assert more[i] in more;
    }
  }

  /** A row has canonical fields exactly if it is how a log with topics in the range is sent. */
  lemma {:induction false} CanonicalExactly(row: RawLog, first: nat, last: nat)
    ensures FieldsAreCanonical(row, first, last) <==>
            exists log :: Sent(log) == row && log.topics != [] && first <= log.block <= last
  {
    if FieldsAreCanonical(row, first, last) {
      var log := Parsed(row, first, last);
      assert Sent(log).topics == row.topics;
      assert Sent(log) == row;
    }
  }

  /** One log comes before another: in an earlier block, or transaction, or at an earlier place in it. */
  predicate IsEarlier(a: Log, b: Log) {
    a.block < b.block
    || (a.block == b.block
        && (a.transaction < b.transaction || (a.transaction == b.transaction && a.index < b.index)))
  }

  /** A scan that ends without error delivers logs in the order of the chain, none twice. */
  lemma {:induction false} ScanFollowsTheChain(p: Provider, f: Filter, first: nat, last: nat, w: World, i: nat, j: nat)
    requires Scan(p, f, first, last, w).logs.Some? && i < j < |Scan(p, f, first, last, w).logs.value|
    ensures IsEarlier(Scan(p, f, first, last, w).logs.value[i], Scan(p, f, first, last, w).logs.value[j])
  {
    ScanIsSound(p, f, first, last, w);
  }

  // ---- the size of requests ----

  ghost predicate FitChunk(attempts: seq<Attempt>) {
    forall i :: 0 <= i < |attempts| ==> attempts[i].last - attempts[i].first < 30_000
  }

  lemma {:induction false} AdaptiveFitsChunk(p: Provider, f: Filter, first: nat, last: nat, w: World)
    requires first <= last < first + 30_000
    ensures FitChunk(Adaptive(p, f, first, last, w).attempts)
    decreases last - first
  {
    var (got, after) := Logs(p, f, first, last, w);
    if got.None? && first < last {
      var middle := (first + last) / 2;
      AdaptiveFitsChunk(p, f, first, middle, after);
      var left := Adaptive(p, f, first, middle, after);
      if left.logs.Some? { AdaptiveFitsChunk(p, f, middle + 1, last, left.world); }
    }
  }

  ghost predicate RangeFitsChunk(range: RangeScan, first: nat, last: nat, w: World) {
    first <= last < first + 30_000 ==> FitChunk(range(first, last, w).attempts)
  }

  lemma {:induction false} ChunksFit(range: RangeScan, first: nat, last: nat, w: World)
    requires forall a, b, w' :: RangeFitsChunk(range, a, b, w')
    ensures FitChunk(Chunks(range, first, last, w).attempts)
    decreases last + 1 - first
  {
    if first <= last {
      var end := ChunkEnd(first, last);
      assert RangeFitsChunk(range, first, end, w);
      ChunksFit(range, end + 1, last, range(first, end, w).world);
    }
  }

  /** No request of a scan asks for more than 30,000 blocks. */
  lemma {:induction false} RequestsFitChunk(p: Provider, f: Filter, first: nat, last: nat, w: World)
    ensures FitChunk(Scan(p, f, first, last, w).attempts)
  {
    forall a: nat, b: nat, w': World ensures RangeFitsChunk(Ranges(p, f), a, b, w') {
      if a <= b < a + 30_000 { AdaptiveFitsChunk(p, f, a, b, w'); }
    }
    ChunksFit(Ranges(p, f), first, last, w);
  }

  /** What a filter may ask for: an address of 20 bytes, and lists of topics of 32 bytes that are not empty. */
  lemma {:induction false} FiltersExactly(f: Filter)
    ensures FilterIsWellFormed(f) <==>
      && (f.address.Some? ==> IsHex(f.address.value, 20 * 2))
      && (forall entry :: entry in f.topics && entry.Some? ==>
            entry.value != {} && forall topic :: topic in entry.value ==> IsHex(topic, 32 * 2))
  {
    if FilterIsWellFormed(f) {
      forall entry | entry in f.topics && entry.Some?
        ensures entry.value != {} && forall topic :: topic in entry.value ==> IsHex(topic, 64)
      {
        var i :| 0 <= i < |f.topics| && f.topics[i] == entry;
        assert AreWords(f.topics[i].value);
      }
    } else if f.address.Some? ==> IsHex(f.address.value, 40) {
      var i :| 0 <= i < |f.topics| && f.topics[i].Some? && !AreWords(f.topics[i].value);
      assert f.topics[i] in f.topics;
    }
  }

  /** The first request of a scan asks for as many blocks as that, or for the whole range if it is shorter. */
  lemma {:induction false} FirstRequestIsAChunk(p: Provider, f: Filter, first: nat, last: nat, w: World)
    requires first <= last
    ensures var attempts := Scan(p, f, first, last, w).attempts;
      attempts != [] && attempts[0].first == first
      && attempts[0].last == if last - first < 30_000 then last else first + 29_999
  {
    assert Adaptive(p, f, first, ChunkEnd(first, last), w).attempts != [];
  }
}
