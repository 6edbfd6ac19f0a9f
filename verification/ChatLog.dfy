/**
 The append-only log of a chat room (edge/src/chat-log.ts): rows numbered from one, deduplicated by
 batch id among the rows still stored, and pruned by checkpoints whose floor only moves forward.
 */
module ChatLog {
  import opened Common

  datatype LogRow = LogRow(seqNo: nat, device: string, batchId: string, bytes: Bytes)

  /** The rows table in seq order, with the two counters kept beside it. */
  datatype Log = Log(rows: seq<LogRow>, head: nat, floor: nat)

  const EMPTY_LOG := Log([], 0, 0)

  const MAX_ROW_BYTES: nat := 1024 * 1024

  datatype AppendOutcome = Accepted(seqNo: nat, dup: bool) | TooLarge | EmptyRow

  /** The first stored row with this batch id. */
  function FindBatch(rows: seq<LogRow>, batchId: string, from: nat): (r: nat)
    requires from <= |rows|
    ensures from <= r <= |rows|
    ensures r < |rows| ==> rows[r].batchId == batchId
    ensures forall k :: from <= k < r ==> rows[k].batchId != batchId
    decreases |rows| - from
  {
    if from == |rows| || rows[from].batchId == batchId then from else FindBatch(rows, batchId, from + 1)
  }

  function AppendRow(log: Log, device: string, batchId: string, bytes: Bytes): (Log, AppendOutcome) {
    if bytes == [] then (log, EmptyRow)
    else if |bytes| > MAX_ROW_BYTES then (log, TooLarge)
    else
      var at := FindBatch(log.rows, batchId, 0);
      if at < |log.rows| then (log, Accepted(log.rows[at].seqNo, true))
      else
        var n := log.head + 1;
        (Log(log.rows + [LogRow(n, device, batchId, bytes)], n, log.floor), Accepted(n, false))
  }

  /** An empty device name excludes nobody. */
  predicate Excluded(row: LogRow, exclude: Option<string>) {
    exclude.Some? && exclude.value != "" && row.device == exclude.value
  }

  function RowsAfter(rows: seq<LogRow>, after: nat, exclude: Option<string>): (out: seq<LogRow>)
    ensures |out| <= |rows|
  {
    if rows == [] then []
    else
      var last := rows[|rows| - 1];
      RowsAfter(rows[..|rows| - 1], after, exclude)
      + if last.seqNo > after && !Excluded(last, exclude) then [last] else []
  }

  datatype CommitOutcome = Committed(floor: nat, pruned: nat) | FloorRegression | AheadOfHead | EmptyCheckpoint

  function CommitCheckpoint(log: Log, covered: nat, bytes: Bytes): (Log, CommitOutcome) {
    if bytes == [] then (log, EmptyCheckpoint)
    else if covered < log.floor then (log, FloorRegression)
    else if covered > log.head then (log, AheadOfHead)
    else
      var kept := RowsAfter(log.rows, covered, None);
      (Log(kept, log.head, covered), Committed(covered, |log.rows| - |kept|))
  }

  // ── runs ─────────────────────────────────────────────────────────────────

  datatype LogEvent = Append(device: string, batchId: string, bytes: Bytes) | Commit(covered: nat, bytes: Bytes)

  function LogStep(log: Log, e: LogEvent): Log {
    match e
    case Append(device, batchId, bytes) => AppendRow(log, device, batchId, bytes).0
    case Commit(covered, bytes) => CommitCheckpoint(log, covered, bytes).0
  }

  /** The rows ever accepted: each append that was stored, in order. */
  function History(log: Log, history: seq<LogRow>, e: LogEvent): seq<LogRow> {
    if LogStep(log, e).head > log.head then
      history + [LogRow(log.head + 1, e.device, e.batchId, e.bytes)]
    else history
  }

  /** Stored rows are exactly the accepted history above the floor, numbered by position. */
  ghost predicate LogOk(log: Log, history: seq<LogRow>) {
    && log.floor <= log.head == |history|
    && log.rows == history[log.floor..]
    && (forall k :: 0 <= k < |history| ==> history[k].seqNo == k + 1)
    && (forall i, j :: log.floor <= i < j < |history| ==> history[i].batchId != history[j].batchId)
  }

  function LogRun(events: seq<LogEvent>): (r: (Log, seq<LogRow>)) {
    if events == [] then (EMPTY_LOG, [])
    else
      var before := LogRun(events[..|events| - 1]);
      var e := events[|events| - 1];
      (LogStep(before.0, e), History(before.0, before.1, e))
  }

  /** The rows of a list that a device filter lets through. */
  function Filter(rows: seq<LogRow>, exclude: Option<string>): seq<LogRow> {
    if rows == [] then []
    else
      var last := rows[|rows| - 1];
      Filter(rows[..|rows| - 1], exclude) + if Excluded(last, exclude) then [] else [last]
  }

  /** Numbered rows after `after` are a suffix. */
  lemma {:induction false} RowsAfterSuffix(rows: seq<LogRow>, base: nat, after: nat, exclude: Option<string>)
    requires forall k :: 0 <= k < |rows| ==> rows[k].seqNo == base + k + 1
    ensures var cut := if after <= base then 0 else if after - base <= |rows| then after - base else |rows|;
      RowsAfter(rows, after, exclude) == Filter(rows[cut..], exclude)
  {
    var cut := if after <= base then 0 else if after - base <= |rows| then after - base else |rows|;
    if rows != [] {
      var n := |rows| - 1;
      RowsAfterSuffix(rows[..n], base, after, exclude);
      if cut <= n {
        assert rows[cut..][..n - cut] == rows[..n][cut..];
      } else {
        assert rows[..n][n..] == [];
      }
    }
  }

  lemma {:induction false} FilterNone(rows: seq<LogRow>)
    ensures Filter(rows, None) == rows
  {
    if rows != [] {
      FilterNone(rows[..|rows| - 1]);
    }
  }

  lemma {:induction false} PruneLeaves(log: Log, history: seq<LogRow>, covered: nat)
    requires LogOk(log, history) && log.floor <= covered <= log.head
    ensures RowsAfter(log.rows, covered, None) == history[covered..]
  {
    ReadsSuffix(log, history, covered, None);
    FilterNone(history[covered..]);
  }

  /** A commit prunes exactly the rows between the old floor and the new one. */
  lemma CommitOk(log: Log, history: seq<LogRow>, covered: nat, bytes: Bytes)
    requires LogOk(log, history)
    ensures LogOk(CommitCheckpoint(log, covered, bytes).0, history)
    ensures CommitCheckpoint(log, covered, bytes).0.head == log.head
    ensures log.floor <= CommitCheckpoint(log, covered, bytes).0.floor
    ensures CommitCheckpoint(log, covered, bytes).1.Committed? <==> bytes != [] && log.floor <= covered <= log.head
    ensures CommitCheckpoint(log, covered, bytes).1.Committed? ==>
      CommitCheckpoint(log, covered, bytes).1 == Committed(covered, covered - log.floor)
  {
    if log.floor <= covered <= log.head {
      PruneLeaves(log, history, covered);
    }
  }

  lemma AppendOk(log: Log, history: seq<LogRow>, device: string, batchId: string, bytes: Bytes)
    requires LogOk(log, history)
    ensures var (next, outcome) := AppendRow(log, device, batchId, bytes);
      if outcome.Accepted? && !outcome.dup then
        && outcome.seqNo == log.head + 1 == next.head
        && LogOk(next, history + [LogRow(log.head + 1, device, batchId, bytes)])
      else next == log
    ensures AppendRow(log, device, batchId, bytes).0.floor == log.floor
    ensures AppendRow(log, device, batchId, bytes).1.Accepted? <==> 0 < |bytes| <= MAX_ROW_BYTES
  {
    var at := FindBatch(log.rows, batchId, 0);
    if at == |log.rows| {
      assert forall k :: log.floor <= k < |history| ==> history[k] == log.rows[k - log.floor];
      var all := history + [LogRow(log.head + 1, device, batchId, bytes)];
      assert all[log.floor..] == log.rows + [LogRow(log.head + 1, device, batchId, bytes)];
    }
  }

  /** One step keeps the invariant and the counters never go back. */
  lemma LogStepOk(log: Log, history: seq<LogRow>, e: LogEvent)
    requires LogOk(log, history)
    ensures LogOk(LogStep(log, e), History(log, history, e))
    ensures log.head <= LogStep(log, e).head && log.floor <= LogStep(log, e).floor
  {
    match e {
      case Commit(covered, bytes) => CommitOk(log, history, covered, bytes);
      case Append(device, batchId, bytes) => AppendOk(log, history, device, batchId, bytes);
    }
  }

  lemma {:induction false} ReadsSuffix(log: Log, history: seq<LogRow>, after: nat, exclude: Option<string>)
    requires LogOk(log, history)
    ensures var from := if after < log.floor then log.floor else if after <= log.head then after else log.head;
      RowsAfter(log.rows, after, exclude) == Filter(history[from..], exclude)
  {
    RowsAfterSuffix(log.rows, log.floor, after, exclude);
    var from := if after < log.floor then log.floor else if after <= log.head then after else log.head;
    assert history[log.floor..][from - log.floor..] == history[from..];
  }

  /** In every reachable state the stored rows are the accepted history at seqs (floor, head], and
      reading after any cursor at or above the floor gives the history suffix after it, filtered. */
  lemma {:induction false} LogConserved(events: seq<LogEvent>, after: nat, exclude: Option<string>)
    ensures LogOk(LogRun(events).0, LogRun(events).1)
    ensures var (log, history) := LogRun(events);
      log.floor <= after <= log.head ==> RowsAfter(log.rows, after, exclude) == Filter(history[after..], exclude)
  {
    if events != [] {
      LogConserved(events[..|events| - 1], after, exclude);
      var before := LogRun(events[..|events| - 1]);
      LogStepOk(before.0, before.1, events[|events| - 1]);
    }
    ReadsSuffix(LogRun(events).0, LogRun(events).1, after, exclude);
  }

  lemma {:induction false} LogMonotone(events: seq<LogEvent>, n: nat)
    requires n <= |events|
    ensures LogRun(events[..n]).0.head <= LogRun(events).0.head
    ensures LogRun(events[..n]).0.floor <= LogRun(events).0.floor
    ensures LogRun(events[..n]).1 <= LogRun(events).1
  {
    if n == |events| {
      assert events[..n] == events;
    } else {
      var init := events[..|events| - 1];
      assert init[..n] == events[..n];
      LogMonotone(init, n);
      LogConserved(init, 0, None);
      LogStepOk(LogRun(init).0, LogRun(init).1, events[|events| - 1]);
    }
  }

  /** A push is a duplicate exactly when its batch id is on a row above the floor. */
  lemma DedupeWindow(log: Log, history: seq<LogRow>, device: string, batchId: string, bytes: Bytes)
    requires LogOk(log, history) && 0 < |bytes| <= MAX_ROW_BYTES
    ensures AppendRow(log, device, batchId, bytes).1.Accepted?
    ensures AppendRow(log, device, batchId, bytes).1.dup <==>
      exists k :: log.floor <= k < log.head && history[k].batchId == batchId
    ensures forall k :: log.floor <= k < log.head && history[k].batchId == batchId ==>
      AppendRow(log, device, batchId, bytes).1.seqNo == k + 1
  {
    var at := FindBatch(log.rows, batchId, 0);
    assert forall k :: log.floor <= k < |history| ==> history[k] == log.rows[k - log.floor];
    if at < |log.rows| {
      assert history[log.floor + at] == log.rows[at];
    }
  }

  /** So a batch replayed after a checkpoint covered it is appended a second time. */
  lemma ReplayAfterPruneAppends()
    ensures var push := Append("dev", "b1", [7]);
      var history := LogRun([push, Commit(1, [9]), push]).1;
      |history| == 2 && history[0].batchId == history[1].batchId
  {
    var push, commit := Append("dev", "b1", [7]), Commit(1, [9]);
    var row := LogRow(1, "dev", "b1", [7]);
    assert [row][..0] == [];
    var none: seq<LogEvent> := [];
    assert LogRun(none) == (EMPTY_LOG, []);
    assert [push][..0] == none;
    assert LogStep(EMPTY_LOG, push) == Log([row], 1, 0);
    assert LogRun([push]) == (Log([row], 1, 0), [row]);
    assert RowsAfter([row], 1, None) == [];
    assert [push, commit][..1] == [push];
    assert LogRun([push, commit]) == (Log([], 1, 1), [row]);
    assert [push, commit, push][..2] == [push, commit];
    assert LogRun([push, commit, push]).1 == [row, LogRow(2, "dev", "b1", [7])];
  }
}
