/**
 No-gap relay: in every run, what a socket has been sent since its last row request is exactly the
 history after its cursor, less what it excluded and what it pushed itself.
 */
module ChatRelay {
  import opened Common
  import opened ChatLog
  import opened ChatRoom

  /** A socket's last row request: where its outbox stood, where the history it asked for starts and
      stood, whom it excluded, and the seqs it has pushed itself since. */
  datatype Request = Request(mark: nat, start: nat, head0: nat, exclude: Option<string>, own: set<nat>)

  /** A room with its accepted history and the last request of every socket. */
  datatype Run = Run(room: Room, history: seq<LogRow>, reqs: map<SocketId, Request>)

  const EMPTY_RUN := Run(EMPTY_ROOM, [], map[])

  function StartOf(log: Log, after: nat): nat {
    if after < log.floor then log.floor else if after <= log.head then after else log.head
  }

  function Observe(run: Run, e: Event): Run {
    var room := run.room;
    var next := Step(room, e);
    match e
    case RowsReq(id, after, excludeOwn) =>
      if Open(room, id) && room.sockets[id].ready then
        Run(next, run.history,
            run.reqs[id := Request(|room.sent[id]|, StartOf(room.log, Cursor(after)), room.log.head,
                                   ExcludeFor(room.sockets[id], excludeOwn), {})])
      else Run(next, run.history, run.reqs)
    case Push(id, batchId, bytes, _) =>
      if next.log.head > room.log.head && Open(room, id) then
        Run(next, run.history + [LogRow(next.log.head, room.sockets[id].device, batchId, bytes)],
            if id in run.reqs then run.reqs[id := run.reqs[id].(own := run.reqs[id].own + {next.log.head})]
            else run.reqs)
      else Run(next, run.history, run.reqs)
    case _ => Run(next, run.history, run.reqs)
  }

  function RunAll(events: seq<Event>): Run {
    if events == [] then EMPTY_RUN else Observe(RunAll(events[..|events| - 1]), events[|events| - 1])
  }

  /** The rows a list of frames delivers. */
  function Delivered(frames: seq<Frame>): seq<LogRow> {
    if frames == [] then []
    else
      Delivered(frames[..|frames| - 1])
      + match frames[|frames| - 1]
        case RowFrame(row) => [row]
        case _ => []
  }

  function NotOwn(rows: seq<LogRow>, own: set<nat>): seq<LogRow> {
    if rows == [] then []
    else
      var last := rows[|rows| - 1];
      NotOwn(rows[..|rows| - 1], own) + if last.seqNo in own then [] else [last]
  }

  /** What the socket should have been sent since its request. */
  function Expected(history: seq<LogRow>, req: Request): seq<LogRow>
    requires req.start <= req.head0 <= |history|
  {
    Filter(history[req.start..req.head0], req.exclude) + NotOwn(history[req.head0..], req.own)
  }

  ghost predicate ReqOk(run: Run, id: SocketId)
    requires id in run.reqs && Open(run.room, id)
  {
    var req := run.reqs[id];
    && req.start <= req.head0 <= |run.history|
    && run.room.sockets[id].ready
    && req.mark <= |run.room.sent[id]|
    && (forall n :: n in req.own ==> n <= |run.history|)
    && Delivered(run.room.sent[id][req.mark..]) == Expected(run.history, req)
  }

  ghost predicate RunOk(run: Run) {
    && run.room.sockets.Keys <= run.room.sent.Keys && run.reqs.Keys <= run.room.sent.Keys
    && LogOk(run.room.log, run.history)
    && forall id :: id in run.reqs && id in run.room.sockets ==> ReqOk(run, id)
  }

  lemma {:induction false} DeliveredConcat(a: seq<Frame>, b: seq<Frame>)
    ensures Delivered(a + b) == Delivered(a) + Delivered(b)
  {
    if b == [] {
      assert a + b == a;
    } else {
      assert (a + b)[..|a + b| - 1] == a + b[..|b| - 1];
      DeliveredConcat(a, b[..|b| - 1]);
    }
  }

  lemma {:induction false} DeliveredRows(rows: seq<LogRow>)
    ensures Delivered(RowFrames(rows)) == rows
  {
    if rows != [] {
      DeliveredRows(rows[..|rows| - 1]);
      assert RowFrames(rows)[..|rows| - 1] == RowFrames(rows[..|rows| - 1]);
    }
  }

  lemma DeliveredOne(f: Frame)
    ensures Delivered([f]) == if f.RowFrame? then [f.row] else []
  {
    assert [f][..0] == [];
  }

  /** A seq not among the rows makes no difference. */
  lemma {:induction false} NotOwnIrrelevant(rows: seq<LogRow>, own: set<nat>, n: nat)
    requires forall k :: 0 <= k < |rows| ==> rows[k].seqNo != n
    ensures NotOwn(rows, own + {n}) == NotOwn(rows, own)
  {
    if rows != [] {
      NotOwnIrrelevant(rows[..|rows| - 1], own, n);
    }
  }

  lemma {:induction false} NotOwnEmpty(rows: seq<LogRow>)
    ensures NotOwn(rows, {}) == rows
  {
    if rows != [] {
      NotOwnEmpty(rows[..|rows| - 1]);
    }
  }

  lemma FrameAppended(frames: seq<Frame>, mark: nat, f: Frame)
    requires mark <= |frames|
    ensures Delivered((frames + [f])[mark..]) == Delivered(frames[mark..]) + if f.RowFrame? then [f.row] else []
  {
    assert (frames + [f])[mark..] == frames[mark..] + [f];
    DeliveredConcat(frames[mark..], [f]);
    DeliveredOne(f);
  }

  /** A new row extends what is expected, unless the socket pushed it. */
  lemma ExpectedGrows(history: seq<LogRow>, req: Request, row: LogRow, mine: bool)
    requires req.start <= req.head0 <= |history|
    requires forall k :: 0 <= k < |history| ==> history[k].seqNo == k + 1
    requires row.seqNo == |history| + 1 && forall n :: n in req.own ==> n <= |history|
    ensures Expected(history + [row], if mine then req.(own := req.own + {row.seqNo}) else req)
            == Expected(history, req) + if mine then [] else [row]
  {
    var all := history + [row];
    assert all[req.start..req.head0] == history[req.start..req.head0];
    assert all[req.head0..] == history[req.head0..] + [row];
    assert (history[req.head0..] + [row])[..|history| - req.head0] == history[req.head0..];
    if mine {
      NotOwnIrrelevant(history[req.head0..], req.own, row.seqNo);
    }
  }

  // ── one event ────────────────────────────────────────────────────────────

  /** What a request for rows puts on the socket. */
  lemma RowsReqSent(room: Room, id: SocketId, after: int, excludeOwn: bool)
    requires Open(room, id) && room.sockets[id].ready
    ensures var rows := RowsAfter(room.log.rows, Cursor(after), ExcludeFor(room.sockets[id], excludeOwn));
      var next := Step(room, RowsReq(id, after, excludeOwn));
      && Open(next, id) && next.sockets == room.sockets && |room.sent[id]| <= |next.sent[id]|
      && next.sent[id][|room.sent[id]|..] == RowFrames(rows) + [RowsDone(room.log.head)]
  {
  }

  lemma RowsDelivered(rows: seq<LogRow>, head: nat)
    ensures Delivered(RowFrames(rows) + [RowsDone(head)]) == rows
  {
    DeliveredConcat(RowFrames(rows), [RowsDone(head)]);
    DeliveredRows(rows);
    DeliveredOne(RowsDone(head));
  }

  lemma ExpectedAtOnce(history: seq<LogRow>, req: Request)
    requires req.start <= req.head0 == |history| && req.own == {}
    ensures Expected(history, req) == Filter(history[req.start..], req.exclude)
  {
    assert history[req.start..req.head0] == history[req.start..];
    assert history[req.head0..] == [];
  }

  lemma RowsReqOk(run: Run, id: SocketId, after: int, excludeOwn: bool)
    requires LogOk(run.room.log, run.history) && Open(run.room, id) && run.room.sockets[id].ready
    ensures var next := Observe(run, RowsReq(id, after, excludeOwn));
      id in next.reqs && Open(next.room, id) && ReqOk(next, id)
  {
    var room := run.room;
    var exclude := ExcludeFor(room.sockets[id], excludeOwn);
    var rows := RowsAfter(room.log.rows, Cursor(after), exclude);
    var req := Request(|room.sent[id]|, StartOf(room.log, Cursor(after)), room.log.head, exclude, {});
    RowsReqSent(room, id, after, excludeOwn);
    RowsDelivered(rows, room.log.head);
    ReadsSuffix(room.log, run.history, Cursor(after), exclude);
    ExpectedAtOnce(run.history, req);
    assert Observe(run, RowsReq(id, after, excludeOwn)).reqs[id] == req;
  }

  /** An event that stores no row and sends `id` at most one frame that is not a row. */
  lemma QuietOk(run: Run, next: Run, id: SocketId)
    requires id in run.reqs && Open(run.room, id) && ReqOk(run, id)
    requires next.history == run.history && id in next.reqs && next.reqs[id] == run.reqs[id]
    requires id in next.room.sockets && next.room.sockets[id].ready && id in next.room.sent
    requires next.room.sent[id] == run.room.sent[id]
      || exists f: Frame :: !f.RowFrame? && next.room.sent[id] == run.room.sent[id] + [f]
    ensures ReqOk(next, id)
  {
    assert Open(next.room, id);
    if next.room.sent[id] != run.room.sent[id] {
      var f: Frame :| !f.RowFrame? && next.room.sent[id] == run.room.sent[id] + [f];
      FrameAppended(run.room.sent[id], run.reqs[id].mark, f);
    }
  }

  /** A stored push: the sender gets only its ack, everybody else ready gets the row. */
  lemma PushShape(room: Room, e: Event, id: SocketId)
    requires e.Push? && Open(room, e.id) && Open(room, id) && room.sockets[id].ready
    requires Step(room, e).log.head > room.log.head
    ensures var next := Step(room, e);
      && next.sockets == room.sockets && id in next.sent
      && next.log.head == room.log.head + 1
      && next.sent[id] == room.sent[id]
           + [if id == e.id then AckFrame(e.batchId, next.log.head, false)
              else RowFrame(LogRow(next.log.head, room.sockets[e.id].device, e.batchId, e.bytes))]
  {
  }

  lemma PushedOk(run: Run, e: Event, id: SocketId)
    requires RunOk(run) && e.Push? && Open(run.room, e.id)
    requires Step(run.room, e).log.head > run.room.log.head
    requires id in run.reqs && id in run.room.sockets
    ensures id in Observe(run, e).reqs && Open(Observe(run, e).room, id) && ReqOk(Observe(run, e), id)
  {
    var room := run.room;
    var req := run.reqs[id];
    PushShape(room, e, id);
    var head := Step(room, e).log.head;
    var row := LogRow(head, room.sockets[e.id].device, e.batchId, e.bytes);
    var f := if id == e.id then AckFrame(e.batchId, head, false) else RowFrame(row);
    assert Delivered(Step(room, e).sent[id][req.mark..])
           == Expected(run.history, req) + if id == e.id then [] else [row] by {
      FrameAppended(room.sent[id], req.mark, f);
    }
    ExpectedGrows(run.history, req, row, id == e.id);
  }

  lemma PushLog(run: Run, e: Event)
    requires LogOk(run.room.log, run.history) && e.Push?
    ensures LogOk(Observe(run, e).room.log, Observe(run, e).history)
    ensures Step(run.room, e).log.head <= run.room.log.head ==> Step(run.room, e).log == run.room.log
  {
    if Open(run.room, e.id) {
      AppendOk(run.room.log, run.history, run.room.sockets[e.id].device, e.batchId, e.bytes);
    }
  }

  lemma ObserveOk(run: Run, e: Event)
    requires RunOk(run)
    ensures RunOk(Observe(run, e))
  {
    var next := Observe(run, e);
    assert next.room.sockets.Keys <= next.room.sent.Keys && next.reqs.Keys <= next.room.sent.Keys;
    assert LogOk(next.room.log, next.history) by {
      if e.Push? {
        PushLog(run, e);
      } else if e.Checkpoint? {
        CommitOk(run.room.log, run.history, e.covered, e.bytes);
      }
    }
    forall id | id in next.reqs && id in next.room.sockets
      ensures ReqOk(next, id)
    {
      if e.RowsReq? && e.id == id && Open(run.room, id) && run.room.sockets[id].ready {
        RowsReqOk(run, id, e.after, e.excludeOwn);
      } else if e.Push? && Open(run.room, e.id) && Step(run.room, e).log.head > run.room.log.head {
        PushedOk(run, e, id);
      } else {
        ElsewhereOk(run, e, id);
      }
    }
  }

  lemma ElsewhereOk(run: Run, e: Event, id: SocketId)
    requires RunOk(run) && id in Observe(run, e).reqs && Open(Observe(run, e).room, id)
    requires !(e.RowsReq? && e.id == id && Open(run.room, id) && run.room.sockets[id].ready)
    requires !(e.Push? && Open(run.room, e.id) && Step(run.room, e).log.head > run.room.log.head)
    ensures ReqOk(Observe(run, e), id)
  {
    var next := Observe(run, e);
    assert id in run.reqs && next.reqs[id] == run.reqs[id] && next.history == run.history;
    match e {
      case Connect(_, _) =>
        KnownSocket(run, e, id);
        QuietOk(run, next, id);
      case Close(_) => QuietOk(run, next, id);
      case Hello(_, _) =>
        var f := StateFrame(run.room.log.head, run.room.log.floor, |run.room.log.rows|);
        assert next.room.sent[id] == run.room.sent[id] || (!f.RowFrame? && next.room.sent[id] == run.room.sent[id] + [f]);
        QuietOk(run, next, id);
      case RowsReq(_, _, _) => QuietOk(run, next, id);
      case Push(_, _, _, _) =>
        PushLog(run, e);
        QuietPush(run, e, id);
        QuietOk(run, next, id);
      case Checkpoint(_, _) => QuietOk(run, next, id);
    }
  }

  /** A request only ever belongs to a socket that has an outbox. */
  lemma KnownSocket(run: Run, e: Event, id: SocketId)
    requires RunOk(run) && e.Connect? && id in run.reqs && id in Observe(run, e).room.sockets
    ensures id in run.room.sockets && id in run.room.sent
  {
  }

  lemma QuietPush(run: Run, e: Event, id: SocketId)
    requires RunOk(run) && e.Push? && Step(run.room, e).log.head <= run.room.log.head
    requires id in run.room.sockets
    ensures var next := Step(run.room, e);
      && next.sockets == run.room.sockets && id in next.sent
      && (next.sent[id] == run.room.sent[id]
          || exists f: Frame :: !f.RowFrame? && next.sent[id] == run.room.sent[id] + [f])
  {
    var next := Step(run.room, e);
    if e.id == id {
      if next.sent[id] != run.room.sent[id] {
        var f := next.sent[id][|next.sent[id]| - 1];
        assert next.sent[id] == run.room.sent[id] + [f] && !f.RowFrame?;
      }
    }
  }

  lemma {:induction false} RunAllOk(events: seq<Event>)
    ensures RunOk(RunAll(events))
  {
    if events != [] {
      RunAllOk(events[..|events| - 1]);
      ObserveOk(RunAll(events[..|events| - 1]), events[|events| - 1]);
    }
  }

  // ── what it means for a client ───────────────────────────────────────────

  /** `out` takes rows from a numbered stretch of history, in order. */
  ghost predicate InOrder(out: seq<LogRow>, history: seq<LogRow>, lo: nat, hi: nat) {
    && (forall i :: 0 <= i < |out| ==>
          lo < out[i].seqNo <= hi && out[i].seqNo <= |history| && history[out[i].seqNo - 1] == out[i])
    && (forall i, j :: 0 <= i < j < |out| ==> out[i].seqNo < out[j].seqNo)
  }

  ghost predicate Numbered(history: seq<LogRow>) {
    forall k :: 0 <= k < |history| ==> history[k].seqNo == k + 1
  }

  lemma InOrderSnoc(out: seq<LogRow>, more: seq<LogRow>, history: seq<LogRow>, lo: nat, hi: nat)
    requires Numbered(history) && lo <= hi < |history| && InOrder(out, history, lo, hi)
    requires more == out || more == out + [history[hi]]
    ensures InOrder(more, history, lo, hi + 1)
  {
    assert forall i :: 0 <= i < |out| ==> more[i] == out[i];
    assert |more| > |out| ==> more[|out|] == history[hi];
  }

  lemma {:induction false} FilterSnoc(history: seq<LogRow>, lo: nat, hi: nat, exclude: Option<string>)
    requires lo <= hi < |history|
    ensures var before, after := Filter(history[lo..hi], exclude), Filter(history[lo..hi + 1], exclude);
      after == before || after == before + [history[hi]]
  {
    assert history[lo..hi + 1][..hi - lo] == history[lo..hi];
  }

  lemma {:induction false} FilterInOrder(history: seq<LogRow>, lo: nat, hi: nat, exclude: Option<string>)
    requires Numbered(history) && lo <= hi <= |history|
    ensures InOrder(Filter(history[lo..hi], exclude), history, lo, hi)
  {
    if lo < hi {
      FilterInOrder(history, lo, hi - 1, exclude);
      FilterSnoc(history, lo, hi - 1, exclude);
      InOrderSnoc(Filter(history[lo..hi - 1], exclude), Filter(history[lo..hi], exclude), history, lo, hi - 1);
    }
  }

  lemma {:induction false} FilterKeeps(rows: seq<LogRow>, exclude: Option<string>, k: nat)
    requires k < |rows| && !Excluded(rows[k], exclude)
    ensures rows[k] in Filter(rows, exclude)
  {
    if k < |rows| - 1 {
      FilterKeeps(rows[..|rows| - 1], exclude, k);
    }
  }

  lemma {:induction false} NotOwnSnoc(history: seq<LogRow>, lo: nat, hi: nat, own: set<nat>)
    requires lo <= hi < |history|
    ensures var before, after := NotOwn(history[lo..hi], own), NotOwn(history[lo..hi + 1], own);
      after == before || after == before + [history[hi]]
  {
    assert history[lo..hi + 1][..hi - lo] == history[lo..hi];
  }

  lemma {:induction false} NotOwnInOrder(history: seq<LogRow>, lo: nat, hi: nat, own: set<nat>)
    requires Numbered(history) && lo <= hi <= |history|
    ensures InOrder(NotOwn(history[lo..hi], own), history, lo, hi)
  {
    if lo < hi {
      NotOwnInOrder(history, lo, hi - 1, own);
      NotOwnSnoc(history, lo, hi - 1, own);
      InOrderSnoc(NotOwn(history[lo..hi - 1], own), NotOwn(history[lo..hi], own), history, lo, hi - 1);
    }
  }

  lemma {:induction false} NotOwnKeeps(rows: seq<LogRow>, own: set<nat>, k: nat)
    requires k < |rows| && rows[k].seqNo !in own
    ensures rows[k] in NotOwn(rows, own)
  {
    if k < |rows| - 1 {
      NotOwnKeeps(rows[..|rows| - 1], own, k);
    }
  }

  lemma InOrderConcat(a: seq<LogRow>, b: seq<LogRow>, history: seq<LogRow>, lo: nat, mid: nat, hi: nat)
    requires lo <= mid <= hi && InOrder(a, history, lo, mid) && InOrder(b, history, mid, hi)
    ensures InOrder(a + b, history, lo, hi)
  {
  }

  /** The row of history at index `k` reached the socket, or the socket has it, or did not want it. */
  ghost predicate Covered(run: Run, req: Request, got: seq<LogRow>, k: nat)
    requires k < |run.history|
  {
    || run.history[k] in got
    || run.history[k].seqNo in req.own
    || (k < req.head0 && Excluded(run.history[k], req.exclude))
  }

  /** In every run, a socket that asked for rows has received, since it asked, rows with strictly
      increasing seqs, each the accepted row of that seq, and for every seq after its cursor it was
      either sent that row, or pushed it itself since, or excluded the device that wrote it. */
  lemma {:induction false} NoGapRelay(events: seq<Event>, id: SocketId)
    requires id in RunAll(events).reqs && id in RunAll(events).room.sockets
    ensures var run := RunAll(events);
      var req := run.reqs[id];
      && id in run.room.sent && req.mark <= |run.room.sent[id]|
      && run.room.log.head == |run.history|
      && (var got := Delivered(run.room.sent[id][req.mark..]);
          && InOrder(got, run.history, req.start, |run.history|)
          && forall k :: req.start <= k < |run.history| ==> Covered(run, req, got, k))
  {
    RunAllOk(events);
    var run := RunAll(events);
    assert ReqOk(run, id);
    ExpectedCovers(run, run.reqs[id]);
  }

  lemma ExpectedCovers(run: Run, req: Request)
    requires req.start <= req.head0 <= |run.history| && Numbered(run.history)
    ensures InOrder(Expected(run.history, req), run.history, req.start, |run.history|)
    ensures forall k :: req.start <= k < |run.history| ==> Covered(run, req, Expected(run.history, req), k)
  {
    var h := run.history;
    var a, b := Filter(h[req.start..req.head0], req.exclude), NotOwn(h[req.head0..], req.own);
    assert h[req.head0..|h|] == h[req.head0..];
    FilterInOrder(h, req.start, req.head0, req.exclude);
    NotOwnInOrder(h, req.head0, |h|, req.own);
    InOrderConcat(a, b, h, req.start, req.head0, |h|);
    forall k | req.start <= k < |h|
      ensures Covered(run, req, a + b, k)
    {
      if k < req.head0 {
        if !Excluded(h[k], req.exclude) {
          FilterKeeps(h[req.start..req.head0], req.exclude, k - req.start);
          assert h[k] in a;
        }
      } else if h[k].seqNo !in req.own {
        NotOwnKeeps(h[req.head0..], req.own, k - req.head0);
        assert h[k] in b;
      }
    }
  }
}
