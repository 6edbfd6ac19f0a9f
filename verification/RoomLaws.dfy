/**
 What the room answers to each message (edge/src/chat-room.ts), told by the accepted history: the
 exact frames, for the sender and for everybody else, in every reachable state.
 */
module RoomLaws {
  import opened Common
  import opened Picking
  import opened ChatLog
  import opened ChatRoom
  import opened ChatRelay

  /** Nothing changed but the frames sent to `id`. */
  ghost predicate OnlyAnswers(room: Room, next: Room, id: SocketId, frames: seq<Frame>)
    requires id in room.sent
  {
    next == room.(sent := room.sent[id := room.sent[id] + frames])
  }

  /** Hello makes the socket ready under the name it gives, or keeps the old name if it gives none, and
      tells how much was ever accepted, where the floor is, and how many rows lie between. */
  lemma {:induction false} HelloExactly(events: seq<Event>, id: SocketId, device: string)
    requires Open(RunAll(events).room, id)
    ensures RunAll(events).room.log.floor <= |RunAll(events).history|
    ensures var run := RunAll(events);
      var name := if device == "" then run.room.sockets[id].device else device;
      var state := StateFrame(|run.history|, run.room.log.floor, |run.history| - run.room.log.floor);
      Step(run.room, Hello(id, device))
      == run.room.(sockets := run.room.sockets[id := Socket(name, true)],
                   sent := run.room.sent[id := run.room.sent[id] + [state]])
  {
    RunAllOk(events);
    HelloAnswered(RunAll(events), id, device);
  }

  lemma HelloAnswered(run: Run, id: SocketId, device: string)
    requires RunOk(run) && Open(run.room, id)
    ensures run.room.log.floor <= |run.history|
    ensures var name := if device == "" then run.room.sockets[id].device else device;
      var state := StateFrame(|run.history|, run.room.log.floor, |run.history| - run.room.log.floor);
      Step(run.room, Hello(id, device))
      == run.room.(sockets := run.room.sockets[id := Socket(name, true)],
                   sent := run.room.sent[id := run.room.sent[id] + [state]])
  {
  }

  /** The rows of history a request is for: still stored, after the cursor, and not by the asking
      device if it leaves out its own; a nameless device leaves out nothing. */
  ghost function Wanted(history: seq<LogRow>, floor: nat, after: int, own: Option<string>): (marks: seq<bool>)
    ensures |marks| == |history|
    ensures forall k :: 0 <= k < |history| ==>
      marks[k] == (floor < k + 1 && after < k + 1 && (own == None || own == Some("") || own != Some(history[k].device)))
  {
    seq(|history|, k requires 0 <= k < |history| =>
      floor < k + 1 && after < k + 1 && (own == None || own == Some("") || own != Some(history[k].device)))
  }

  /** A request before hello is refused; otherwise the wanted rows go out in order, and then how much
      was ever accepted. */
  lemma RowsExactly(events: seq<Event>, id: SocketId, after: int, excludeOwn: bool) returns (rows: seq<LogRow>)
    requires Open(RunAll(events).room, id)
    ensures var run := RunAll(events);
      var socket, next := run.room.sockets[id], Step(run.room, RowsReq(id, after, excludeOwn));
      var own := if excludeOwn then Some(socket.device) else None;
      && (!socket.ready ==> OnlyAnswers(run.room, next, id, [ErrorFrame("hello_first")]))
      && (socket.ready ==>
            && Picks(rows, run.history, Wanted(run.history, run.room.log.floor, after, own))
            && OnlyAnswers(run.room, next, id, RowFrames(rows) + [RowsDone(|run.history|)]))
  {
    RunAllOk(events);
    var run := RunAll(events);
    var own := ExcludeFor(run.room.sockets[id], excludeOwn);
    rows := RowsAfter(run.room.log.rows, Cursor(after), own);
    StoredRows(run.room.log, run.history, after, own);
  }

  /** What a read of the first `n` rows ever accepted gives. */
  ghost function ReadUpTo(history: seq<LogRow>, floor: nat, after: int, own: Option<string>, n: nat): seq<LogRow>
    requires n <= |history|
  {
    if n <= floor then [] else RowsAfter(history[floor..n], Cursor(after), own)
  }

  ghost function Reads(history: seq<LogRow>, floor: nat, after: int, own: Option<string>): (lists: seq<seq<LogRow>>)
    ensures |lists| == |history| + 1
    ensures forall n :: 0 <= n <= |history| ==> lists[n] == ReadUpTo(history, floor, after, own, n)
  {
    seq(|history| + 1, n requires 0 <= n <= |history| => ReadUpTo(history, floor, after, own, n))
  }

  lemma ReadAdds(history: seq<LogRow>, floor: nat, after: int, own: Option<string>, j: nat)
    requires Numbered(history) && j < |history|
    ensures Adds(Reads(history, floor, after, own), Wanted(history, floor, after, own), history, j)
  {
    if floor <= j {
      ReadOne(history, floor, after, own, j);
    } else {
      assert !Wanted(history, floor, after, own)[j];
    }
    var lists := Reads(history, floor, after, own);
    assert lists[j + 1] == ReadUpTo(history, floor, after, own, j + 1);
    assert lists[j] == ReadUpTo(history, floor, after, own, j);
  }

  lemma ReadOne(history: seq<LogRow>, floor: nat, after: int, own: Option<string>, j: nat)
    requires Numbered(history) && floor <= j < |history|
    ensures ReadUpTo(history, floor, after, own, j + 1)
            == ReadUpTo(history, floor, after, own, j) + if Wanted(history, floor, after, own)[j] then [history[j]] else []
  {
    RowsAfterSnoc(floor, history, after, own, j + 1);
    if floor == j {
      assert history[floor..j] == [];
    }
  }

  /** Reading the stored rows is picking from all that was ever accepted. */
  lemma {:induction false} StoredRows(log: Log, history: seq<LogRow>, after: int, own: Option<string>)
    requires LogOk(log, history)
    ensures Picks(RowsAfter(log.rows, Cursor(after), own), history, Wanted(history, log.floor, after, own))
  {
    forall j: nat | j < |history|
      ensures Adds(Reads(history, log.floor, after, own), Wanted(history, log.floor, after, own), history, j)
    {
      ReadAdds(history, log.floor, after, own, j);
    }
    BuiltPicks(Reads(history, log.floor, after, own), Wanted(history, log.floor, after, own), history);
    assert history[log.floor..|history|] == log.rows;
    assert Reads(history, log.floor, after, own)[|history|] == RowsAfter(log.rows, Cursor(after), own);
  }

  lemma {:induction false} RowsAfterSnoc(floor: nat, history: seq<LogRow>, after: int, own: Option<string>, n: nat)
    requires floor < n <= |history| && Numbered(history)
    ensures RowsAfter(history[floor..n], Cursor(after), own)
            == if Wanted(history, floor, after, own)[n - 1]
               then RowsAfter(history[floor..n - 1], Cursor(after), own) + [history[n - 1]]
               else RowsAfter(history[floor..n - 1], Cursor(after), own)
  {
    assert history[floor..n][..n - 1 - floor] == history[floor..n - 1];
  }

  /** The stored row with this batch id. */
  ghost predicate StoredAt(run: Run, batchId: string, k: nat) {
    run.room.log.floor <= k < |run.history| && run.history[k].batchId == batchId
  }

  /** Everybody else who is ready gets the row, the sender its acknowledgement. */
  ghost function Spread(room: Room, id: SocketId, row: LogRow): map<SocketId, seq<Frame>> {
    map s | s in room.sent ::
      if s == id then room.sent[s] + [AckFrame(row.batchId, row.seqNo, false)]
      else if s in room.sockets && room.sockets[s].ready then room.sent[s] + [RowFrame(row)]
      else room.sent[s]
  }

  /** Why a push is refused, if it is. */
  ghost function Refusal(socket: Socket, batchId: string, bytes: Bytes, admitted: bool): Option<string> {
    if !socket.ready || |batchId| < 1 || |batchId| > 128 then Some("bad_push")
    else if !admitted then Some("quota")
    else if |bytes| < 1 then Some("empty")
    else if |bytes| > 1_048_576 then Some("too_large")
    else None
  }

  /** The push was stored as the next row of the history, and spread. */
  ghost predicate Stored(run: Run, next: Room, id: SocketId, batchId: string, bytes: Bytes)
    requires Open(run.room, id)
  {
    var row := LogRow(|run.history| + 1, run.room.sockets[id].device, batchId, bytes);
    && next.log == Log(run.room.log.rows + [row], |run.history| + 1, run.room.log.floor)
    && next.sockets == run.room.sockets && next.sent == Spread(run.room, id, row)
  }

  /** A push is refused with its reason and nothing changes; or it repeats a stored batch and is
      acknowledged with that row's seq and nothing changes; or it is the next row of the history, goes to
      every other ready socket once, and is acknowledged. */
  lemma {:induction false} PushExactly(events: seq<Event>, id: SocketId, batchId: string, bytes: Bytes, admitted: bool)
    requires Open(RunAll(events).room, id)
    ensures var run := RunAll(events);
      var next := Step(run.room, Push(id, batchId, bytes, admitted));
      match Refusal(run.room.sockets[id], batchId, bytes, admitted)
      case Some(code) => OnlyAnswers(run.room, next, id, [ErrorFrame(code)])
      case None =>
        && (forall k: nat :: StoredAt(run, batchId, k) ==>
              OnlyAnswers(run.room, next, id, [AckFrame(batchId, k + 1, true)]))
        && ((forall k: nat :: !StoredAt(run, batchId, k)) ==> Stored(run, next, id, batchId, bytes))
  {
    RunAllOk(events);
    var run := RunAll(events);
    if Refusal(run.room.sockets[id], batchId, bytes, admitted).Some? {
      RefusalAnswered(run.room, id, batchId, bytes, admitted);
    } else if exists k: nat :: StoredAt(run, batchId, k) {
      forall k: nat | StoredAt(run, batchId, k)
        ensures OnlyAnswers(run.room, Step(run.room, Push(id, batchId, bytes, true)), id, [AckFrame(batchId, k + 1, true)])
      {
        RepeatAnswered(run, id, batchId, bytes, k);
      }
    } else {
      FreshSpread(run, id, batchId, bytes);
    }
  }

  lemma RefusalAnswered(room: Room, id: SocketId, batchId: string, bytes: Bytes, admitted: bool)
    requires Open(room, id) && Refusal(room.sockets[id], batchId, bytes, admitted).Some?
    ensures OnlyAnswers(room, Step(room, Push(id, batchId, bytes, admitted)), id,
                        [ErrorFrame(Refusal(room.sockets[id], batchId, bytes, admitted).value)])
  {
  }

  lemma RepeatAnswered(run: Run, id: SocketId, batchId: string, bytes: Bytes, k: nat)
    requires RunOk(run) && Open(run.room, id) && Refusal(run.room.sockets[id], batchId, bytes, true).None?
    requires StoredAt(run, batchId, k)
    ensures OnlyAnswers(run.room, Step(run.room, Push(id, batchId, bytes, true)), id, [AckFrame(batchId, k + 1, true)])
  {
    DedupeWindow(run.room.log, run.history, run.room.sockets[id].device, batchId, bytes);
    AppendOk(run.room.log, run.history, run.room.sockets[id].device, batchId, bytes);
    assert run.room.log.floor <= k < run.room.log.head && run.history[k].batchId == batchId;
  }

  lemma FreshSpread(run: Run, id: SocketId, batchId: string, bytes: Bytes)
    requires RunOk(run) && Open(run.room, id) && Refusal(run.room.sockets[id], batchId, bytes, true).None?
    requires forall k: nat :: !StoredAt(run, batchId, k)
    ensures Stored(run, Step(run.room, Push(id, batchId, bytes, true)), id, batchId, bytes)
  {
    var room, device := run.room, run.room.sockets[id].device;
    FreshAppends(run, device, batchId, bytes);
    var row := LogRow(|run.history| + 1, device, batchId, bytes);
    SpreadIs(room.(log := Log(room.log.rows + [row], |run.history| + 1, room.log.floor)), id, row);
  }

  lemma FreshAppends(run: Run, device: string, batchId: string, bytes: Bytes)
    requires LogOk(run.room.log, run.history) && 1 <= |bytes| <= 1_048_576
    requires forall k: nat :: !StoredAt(run, batchId, k)
    ensures var row := LogRow(|run.history| + 1, device, batchId, bytes);
      AppendRow(run.room.log, device, batchId, bytes)
      == (Log(run.room.log.rows + [row], |run.history| + 1, run.room.log.floor), Accepted(|run.history| + 1, false))
  {
    var at := FindBatch(run.room.log.rows, batchId, 0);
    if at < |run.room.log.rows| {
      assert StoredAt(run, batchId, run.room.log.floor + at);
    }
  }

  lemma SpreadIs(room: Room, id: SocketId, row: LogRow)
    requires Open(room, id)
    ensures Send(Relay(room, id, row), id, [AckFrame(row.batchId, row.seqNo, false)])
            == room.(sent := Spread(room, id, row))
  {
  }

  /** A checkpoint is refused with its reason and nothing changes, or it becomes the floor and exactly
      the rows it covers go. */
  lemma {:induction false} CheckpointExactly(events: seq<Event>, covered: nat, bytes: Bytes)
    ensures var run := RunAll(events);
      var (log, outcome) := CommitCheckpoint(run.room.log, covered, bytes);
      && Step(run.room, ChatRoom.Checkpoint(covered, bytes)) == run.room.(log := log)
      && (if bytes == [] then outcome == EmptyCheckpoint && log == run.room.log
          else if covered < run.room.log.floor then outcome == FloorRegression && log == run.room.log
          else if covered > |run.history| then outcome == AheadOfHead && log == run.room.log
          else outcome == Committed(covered, covered - run.room.log.floor)
               && log == Log(run.history[covered..], |run.history|, covered))
  {
    RunAllOk(events);
    var run := RunAll(events);
    if run.room.log.floor <= covered <= run.room.log.head {
      PruneLeaves(run.room.log, run.history, covered);
    }
  }
}
