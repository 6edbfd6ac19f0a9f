/**
 The chat relay (edge/src/chat-room.ts): sockets say hello, ask for rows after a cursor, and push
 rows that are stored and relayed to every other ready socket. Each message is one atomic event.
 Whether the per-device quota admits a push is a parameter; a frame sent is a frame in the outbox.
 */
module ChatRoom {
  import opened Common
  import opened ChatLog

  type SocketId = nat

  datatype Socket = Socket(device: string, ready: bool)

  datatype Frame =
    | StateFrame(head: nat, floor: nat, rowCount: nat)
    | RowFrame(row: LogRow)
    | RowsDone(head: nat)
    | AckFrame(batchId: string, seqNo: nat, dup: bool)
    | ErrorFrame(code: string)

  datatype Room = Room(log: Log, sockets: map<SocketId, Socket>, sent: map<SocketId, seq<Frame>>)

  const EMPTY_ROOM := Room(EMPTY_LOG, map[], map[])

  datatype Event =
    | Connect(id: SocketId, device: string)
    | Close(id: SocketId)
    | Hello(id: SocketId, device: string)
    | RowsReq(id: SocketId, after: int, excludeOwn: bool)
    | Push(id: SocketId, batchId: string, bytes: Bytes, admitted: bool)
    | Checkpoint(covered: nat, bytes: Bytes)

  predicate Open(room: Room, id: SocketId) {
    id in room.sockets && id in room.sent
  }

  function Send(room: Room, id: SocketId, frames: seq<Frame>): Room {
    if Open(room, id) then room.(sent := room.sent[id := room.sent[id] + frames]) else room
  }

  function RowFrames(rows: seq<LogRow>): (frames: seq<Frame>)
    ensures |frames| == |rows|
    ensures forall i :: 0 <= i < |rows| ==> frames[i] == RowFrame(rows[i])
  {
    seq(|rows|, i requires 0 <= i < |rows| => RowFrame(rows[i]))
  }

  /** Live relay: every other ready socket gets the row. */
  function Relay(room: Room, from: SocketId, row: LogRow): Room {
    room.(sent := map id | id in room.sent ::
      if id != from && id in room.sockets && room.sockets[id].ready then room.sent[id] + [RowFrame(row)]
      else room.sent[id])
  }

  function Cursor(after: int): nat {
    if after >= 0 then after else 0
  }

  function ExcludeFor(socket: Socket, excludeOwn: bool): Option<string> {
    if excludeOwn then Some(socket.device) else None
  }

  function PushStep(room: Room, id: SocketId, batchId: string, bytes: Bytes, admitted: bool): Room
    requires Open(room, id)
  {
    var socket := room.sockets[id];
    if !socket.ready || batchId == "" || |batchId| > 128 then Send(room, id, [ErrorFrame("bad_push")])
    else if !admitted then Send(room, id, [ErrorFrame("quota")])
    else
      match AppendRow(room.log, socket.device, batchId, bytes)
      case (_, TooLarge) => Send(room, id, [ErrorFrame("too_large")])
      case (_, EmptyRow) => Send(room, id, [ErrorFrame("empty")])
      case (log, Accepted(seqNo, dup)) =>
        var stored := room.(log := log);
        Send(if dup then stored else Relay(stored, id, LogRow(seqNo, socket.device, batchId, bytes)),
             id, [AckFrame(batchId, seqNo, dup)])
  }

  function RowsStep(room: Room, id: SocketId, after: int, excludeOwn: bool): Room
    requires Open(room, id)
  {
    var socket := room.sockets[id];
    if !socket.ready then Send(room, id, [ErrorFrame("hello_first")])
    else
      Send(room, id, RowFrames(RowsAfter(room.log.rows, Cursor(after), ExcludeFor(socket, excludeOwn)))
                     + [RowsDone(room.log.head)])
  }

  function HelloStep(room: Room, id: SocketId, device: string): Room
    requires Open(room, id)
  {
    var socket := room.sockets[id];
    Send(room.(sockets := room.sockets[id := Socket(if device != "" then device else socket.device, true)]),
         id, [StateFrame(room.log.head, room.log.floor, |room.log.rows|)])
  }

  function Step(room: Room, e: Event): Room {
    match e
    case Connect(id, device) =>
      if id in room.sockets || id in room.sent then room
      else room.(sockets := room.sockets[id := Socket(device, false)], sent := room.sent[id := []])
    case Close(id) => room.(sockets := room.sockets - {id})
    case Hello(id, device) => if Open(room, id) then HelloStep(room, id, device) else room
    case RowsReq(id, after, excludeOwn) => if Open(room, id) then RowsStep(room, id, after, excludeOwn) else room
    case Push(id, batchId, bytes, admitted) =>
      if Open(room, id) then PushStep(room, id, batchId, bytes, admitted) else room
    case Checkpoint(covered, bytes) => room.(log := CommitCheckpoint(room.log, covered, bytes).0)
  }

  /** The room object, with the loops that send rows and relay them. */
  class RoomObject {
    var rows: seq<LogRow>
    var head: nat
    var floor: nat
    var sockets: map<SocketId, Socket>
    var sent: map<SocketId, seq<Frame>>

    ghost function State(): Room
      reads this
    {
      Room(Log(rows, head, floor), sockets, sent)
    }

    ghost predicate Valid()
      reads this
    {
      sockets.Keys <= sent.Keys
    }

    constructor ()
      ensures Valid() && State() == EMPTY_ROOM
    {
      rows, head, floor, sockets, sent := [], 0, 0, map[], map[];
    }

    method HandleHello(id: SocketId, device: string)
      requires Valid() && id in sockets
      modifies this
      ensures Valid() && State() == Step(old(State()), Hello(id, device))
    {
      sockets := sockets[id := Socket(if device != "" then device else sockets[id].device, true)];
      sent := sent[id := sent[id] + [StateFrame(head, floor, |rows|)]];
    }

    method HandleRowsReq(id: SocketId, after: int, excludeOwn: bool)
      requires Valid() && id in sockets
      modifies this`sent
      ensures Valid() && State() == Step(old(State()), RowsReq(id, after, excludeOwn))
    {
      if !sockets[id].ready {
        sent := sent[id := sent[id] + [ErrorFrame("hello_first")]];
        return;
      }
      var exclude := ExcludeFor(sockets[id], excludeOwn);
      var out := sent[id];
      for k := 0 to |rows|
        invariant out == sent[id] + RowFrames(RowsAfter(rows[..k], Cursor(after), exclude))
      {
        assert rows[..k + 1][..k] == rows[..k];
        if rows[k].seqNo > Cursor(after) && !Excluded(rows[k], exclude) {
          out := out + [RowFrame(rows[k])];
        }
      }
      assert rows[..|rows|] == rows;
      assert out + [RowsDone(head)] == sent[id] + (RowFrames(RowsAfter(rows, Cursor(after), exclude)) + [RowsDone(head)]);
      sent := sent[id := out + [RowsDone(head)]];
    }

    method HandlePush(id: SocketId, batchId: string, bytes: Bytes, admitted: bool)
      requires Valid() && id in sockets
      modifies this
      ensures Valid() && State() == Step(old(State()), Push(id, batchId, bytes, admitted))
    {
      var socket := sockets[id];
      if !socket.ready || batchId == "" || |batchId| > 128 {
        sent := sent[id := sent[id] + [ErrorFrame("bad_push")]];
        return;
      }
      if !admitted {
        sent := sent[id := sent[id] + [ErrorFrame("quota")]];
        return;
      }
      var (log, outcome) := AppendRow(Log(rows, head, floor), socket.device, batchId, bytes);
      if outcome.TooLarge? || outcome.EmptyRow? {
        sent := sent[id := sent[id] + [ErrorFrame(if outcome.TooLarge? then "too_large" else "empty")]];
        return;
      }
      rows, head, floor := log.rows, log.head, log.floor;
      if !outcome.dup {
        RelayRow(id, LogRow(outcome.seqNo, socket.device, batchId, bytes));
      }
      sent := sent[id := sent[id] + [AckFrame(batchId, outcome.seqNo, outcome.dup)]];
    }

    method RelayRow(from: SocketId, row: LogRow)
      requires Valid()
      modifies this`sent
      ensures Valid() && State() == Relay(old(State()), from, row)
    {
      ghost var target := Relay(State(), from, row).sent;
      var rest := sockets.Keys;
      while rest != {}
        invariant rest <= sockets.Keys && sent.Keys == old(sent).Keys
        invariant forall id :: id in sent ==> sent[id] == if id in rest then old(sent)[id] else target[id]
        decreases rest
      {
        var id :| id in rest;
        if id != from && sockets[id].ready {
          sent := sent[id := sent[id] + [RowFrame(row)]];
        }
        rest := rest - {id};
      }
      assert sent == target;
    }

    method HandleCheckpoint(covered: nat, bytes: Bytes) returns (outcome: CommitOutcome)
      requires Valid()
      modifies this`rows, this`floor
      ensures Valid() && State() == Step(old(State()), Checkpoint(covered, bytes))
      ensures outcome == CommitCheckpoint(old(State()).log, covered, bytes).1
    {
      var (log, result) := CommitCheckpoint(Log(rows, head, floor), covered, bytes);
      rows, floor := log.rows, log.floor;
      outcome := result;
    }
  }
}
