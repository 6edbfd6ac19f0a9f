/**
 The local registry replica (crates/doc/src/registry.rs): the server's rows, the local batches not
 yet acknowledged, and the clock that stamps local writes. Wall-clock reads are a parameter:
 `wall(k)` is the `k`-th read of a call.
 */
module RegistryDoc {
  import opened Common
  import opened Hlc
  import opened RegistryMerge
  import opened RegistryHistory

  type Table = map<Key, Row>

  datatype PendingBatch = PendingBatch(batch: string, ops: seq<RowOp>, inFlight: bool)

  const MAX_OPS_PER_BATCH: nat := 400

  // ── tables ───────────────────────────────────────────────────────────────

  function Put(rows: Table, row: Row): Table {
    rows[row.key := row]
  }

  function PutAll(rows: Table, list: seq<Row>): Table {
    if list == [] then rows else Put(PutAll(rows, list[..|list| - 1]), list[|list| - 1])
  }

  function RowAt(rows: Table, key: Key): Option<Row> {
    if key in rows then Some(rows[key]) else None
  }

  /** A table applying ops in order, as the server does. */
  ghost function Replay(rows: Table, ops: seq<RowOp>): Table {
    if ops == [] then rows
    else
      var before := Replay(rows, ops[..|ops| - 1]);
      var op := ops[|ops| - 1];
      match ApplyOp(RowAt(before, op.key), op)
      case None => before
      case Some(row) => before[op.key := row]
  }

  function OpsFor(key: Key, ops: seq<RowOp>): seq<RowOp> {
    if ops == [] then []
    else OpsFor(key, ops[..|ops| - 1]) + if ops[|ops| - 1].key == key then [ops[|ops| - 1]] else []
  }

  lemma {:induction false} OpsForConcat(key: Key, a: seq<RowOp>, b: seq<RowOp>)
    ensures OpsFor(key, a + b) == OpsFor(key, a) + OpsFor(key, b)
  {
    if b == [] {
      assert a + b == a;
    } else {
      assert (a + b)[..|a + b| - 1] == a + b[..|b| - 1];
      OpsForConcat(key, a, b[..|b| - 1]);
    }
  }

  /** Each key of the table folds its own ops. */
  lemma {:induction false} ReplayAt(rows: Table, ops: seq<RowOp>, key: Key)
    ensures RowAt(Replay(rows, ops), key) == Fold(RowAt(rows, key), OpsFor(key, ops))
  {
    if ops != [] {
      var init, op := ops[..|ops| - 1], ops[|ops| - 1];
      ReplayAt(rows, init, key);
      if op.key == key {
        var mine := OpsFor(key, init);
        assert (mine + [op])[..|mine|] == mine;
        FoldPresent(RowAt(rows, key), mine);
      } else {
        assert OpsFor(key, ops) == OpsFor(key, init);
      }
    }
  }

  lemma {:induction false} FoldPresent(row: Option<Row>, ops: seq<RowOp>)
    ensures row.Some? ==> Fold(row, ops).Some?
  {
    if ops != [] {
      FoldPresent(row, ops[..|ops| - 1]);
    }
  }

  // ── batches ──────────────────────────────────────────────────────────────

  function Flatten(batches: seq<PendingBatch>): seq<RowOp> {
    if batches == [] then [] else Flatten(batches[..|batches| - 1]) + batches[|batches| - 1].ops
  }

  lemma {:induction false} FlattenConcat(a: seq<PendingBatch>, b: seq<PendingBatch>)
    ensures Flatten(a + b) == Flatten(a) + Flatten(b)
  {
    if b == [] {
      assert a + b == a;
    } else {
      assert (a + b)[..|a + b| - 1] == a + b[..|b| - 1];
      FlattenConcat(a, b[..|b| - 1]);
    }
  }

  function BatchId(t: ClockState, device: string): string {
    "b-" + EncodeHlc(t.lastMs, t.counter, device)
  }

  function Head(ops: seq<RowOp>): nat {
    if |ops| > MAX_OPS_PER_BATCH then MAX_OPS_PER_BATCH else |ops|
  }

  /** The batches `ops` are cut into, the `k`-th read of the wall clock naming the first. */
  function Chunk(ops: seq<RowOp>, s: ClockState, device: string, wall: nat -> int, k: nat): seq<PendingBatch> {
    if ops == [] then []
    else
      var t := Tick(s, wall(k));
      [PendingBatch(BatchId(t, device), ops[..Head(ops)], false)]
      + Chunk(ops[Head(ops)..], t, device, wall, k + 1)
  }

  function ChunkClock(ops: seq<RowOp>, s: ClockState, wall: nat -> int, k: nat): ClockState {
    if ops == [] then s else ChunkClock(ops[Head(ops)..], Tick(s, wall(k)), wall, k + 1)
  }

  /** Chunking loses, repeats and reorders nothing, and no batch exceeds the cap. */
  lemma {:induction false} ChunkExact(ops: seq<RowOp>, s: ClockState, device: string, wall: nat -> int, k: nat)
    ensures Flatten(Chunk(ops, s, device, wall, k)) == ops
    ensures forall b :: b in Chunk(ops, s, device, wall, k) ==> 0 < |b.ops| <= MAX_OPS_PER_BATCH && !b.inFlight
    decreases |ops|
  {
    if ops != [] {
      var t := Tick(s, wall(k));
      var first := PendingBatch(BatchId(t, device), ops[..Head(ops)], false);
      var rest := Chunk(ops[Head(ops)..], t, device, wall, k + 1);
      ChunkExact(ops[Head(ops)..], t, device, wall, k + 1);
      FlattenConcat([first], rest);
      assert Flatten([first]) == first.ops by {
        assert [first][..0] == [];
      }
      assert ops == ops[..Head(ops)] + ops[Head(ops)..];
    }
  }

  // ── the replica ──────────────────────────────────────────────────────────

  datatype StateOutcome = Delta | Replaced | Reseeded

  ghost function SeedOps(rows: Table, order: seq<Key>): seq<RowOp>
    requires forall k :: k in order ==> k in rows
  {
    if order == [] then [] else SeedOps(rows, order[..|order| - 1]) + [SeedOp(rows[order[|order| - 1]])]
  }

  /** `order` lists every key of `keys` once. */
  ghost predicate Enumerates(order: seq<Key>, keys: set<Key>) {
    && (forall k :: k in order <==> k in keys)
    && (forall i, j :: 0 <= i < j < |order| ==> order[i] != order[j])
  }

  /** The overlay before the live filter: server row plus pending ops. */
  ghost function Overlay(rows: Table, pending: seq<PendingBatch>, key: Key): Option<Row> {
    Fold(RowAt(rows, key), OpsFor(key, Flatten(pending)))
  }

  ghost function Visible(row: Option<Row>): Option<Row> {
    if row.Some? && row.value.deleted then None else row
  }

  lemma {:induction false} OverlayStep(key: Key, base: Option<Row>, done: seq<RowOp>, op: RowOp)
    ensures Fold(base, OpsFor(key, done + [op])) == Overlaid(key, Fold(base, OpsFor(key, done)), op)
  {
    OpsForPush(key, done, op);
    var mine := OpsFor(key, done);
    assert (mine + [op])[..|mine|] == mine;
  }

  lemma {:induction false} OpsForPush(key: Key, done: seq<RowOp>, op: RowOp)
    ensures OpsFor(key, done + [op]) == if op.key == key then OpsFor(key, done) + [op] else OpsFor(key, done)
  {
    assert (done + [op])[..|done|] == done;
  }

  /** One op of the overlay: ops of other keys pass by. */
  ghost function Overlaid(key: Key, row: Option<Row>, op: RowOp): Option<Row> {
    if op.key == key then ApplyOp(row, op) else row
  }

  method OverlayOne(key: Key, before: Option<Row>, op: RowOp) returns (row: Option<Row>)
    ensures row == Overlaid(key, before, op)
  {
    row := before;
    if op.key == key {
      var next, _ := Apply(row, op);
      if next.Some? {
        row := next;
      }
    }
  }

  lemma {:induction false} OverlayNext(key: Key, base: Option<Row>, done: seq<RowOp>, ops: seq<RowOp>, j: nat)
    requires j < |ops|
    ensures Fold(base, OpsFor(key, done + ops[..j + 1]))
         == Overlaid(key, Fold(base, OpsFor(key, done + ops[..j])), ops[j])
  {
    assert done + ops[..j + 1] == done + ops[..j] + [ops[j]];
    OverlayStep(key, base, done + ops[..j], ops[j]);
  }

  /** One pending batch on top of what came before it. */
  method OverlayBatch(key: Key, before: Option<Row>, ops: seq<RowOp>, ghost base: Option<Row>, ghost done: seq<RowOp>)
      returns (row: Option<Row>)
    requires before == Fold(base, OpsFor(key, done))
    ensures row == Fold(base, OpsFor(key, done + ops))
  {
    row := before;
    assert done + ops[..0] == done;
    for j := 0 to |ops|
      invariant row == Fold(base, OpsFor(key, done + ops[..j]))
    {
      OverlayNext(key, base, done, ops, j);
      row := OverlayOne(key, row, ops[j]);
    }
    assert ops[..|ops|] == ops;
  }

  /** The first batch of a chunked list, moved to the batches already made. */
  lemma ChunkStep(done: seq<PendingBatch>, ops: seq<RowOp>, s: ClockState, device: string, wall: nat -> int, k: nat)
    requires ops != []
    ensures var t := Tick(s, wall(k));
      done + Chunk(ops, s, device, wall, k)
      == done + [PendingBatch(BatchId(t, device), ops[..Head(ops)], false)]
         + Chunk(ops[Head(ops)..], t, device, wall, k + 1)
  {
  }

  class Replica {
    const device: string
    var rows: Table
    var serverSeq: nat
    var gcFloor: nat
    const hlc: HlcClock
    var pending: seq<PendingBatch>

    ghost function Clock(): ClockState
      reads hlc
    {
      hlc.State()
    }

    /** Every row is filed under its own key. */
    ghost predicate Valid()
      reads this
    {
      forall k :: k in rows ==> rows[k].key == k
    }

    constructor (device: string)
      ensures Valid() && this.device == device && rows == map[] && pending == [] && serverSeq == 0 && Clock() == START
      ensures fresh(hlc)
    {
      this.device := device;
      rows, serverSeq, gcFloor, pending := map[], 0, 0, [];
      hlc := new HlcClock(START);
    }

    method NextHlc(now: int) returns (clock: Clock)
      modifies hlc
      ensures Clock() == Tick(old(Clock()), now)
      ensures clock == EncodeHlc(Clock().lastMs, Clock().counter, device)
    {
      clock := hlc.Next(now, device);
    }

    method EnqueueOps(ops: seq<RowOp>, wall: nat -> int)
      modifies hlc, this`pending
      ensures pending == old(pending) + Chunk(ops, old(Clock()), device, wall, 0)
      ensures Clock() == ChunkClock(ops, old(Clock()), wall, 0)
    {
      var left, k := ops, 0;
      while left != []
        invariant pending + Chunk(left, Clock(), device, wall, k)
                  == old(pending) + Chunk(ops, old(Clock()), device, wall, 0)
        invariant ChunkClock(left, Clock(), wall, k) == ChunkClock(ops, old(Clock()), wall, 0)
        decreases |left|
      {
        ChunkStep(pending, left, Clock(), device, wall, k);
        var tail: seq<RowOp> := [];
        var head := left;
        if |left| > MAX_OPS_PER_BATCH {
          head, tail := left[..MAX_OPS_PER_BATCH], left[MAX_OPS_PER_BATCH..];
        }
        assert head == left[..Head(left)] && tail == left[Head(left)..];
        var hlc := NextHlc(wall(k));
        pending := pending + [PendingBatch("b-" + hlc, head, false)];
        left, k := tail, k + 1;
      }
    }

    method ApplyState(seqNo: nat, full: bool, floor: nat, list: seq<Row>, wall: nat -> int)
      returns (outcome: StateOutcome, ghost order: seq<Key>)
      requires Valid()
      modifies this, hlc
      ensures Valid() && serverSeq == seqNo && gcFloor == floor
      ensures forall k :: k in order ==> k in old(rows)
      ensures var seeds := SeedOps(old(rows), order);
        pending == old(pending) + Chunk(seeds, old(Clock()), device, wall, 0)
        && Clock() == ChunkClock(seeds, old(Clock()), wall, 0)
      ensures !full ==> outcome == Delta && order == [] && rows == PutAll(old(rows), list)
      ensures full && seqNo < old(serverSeq) ==>
        outcome == Reseeded && Enumerates(order, old(rows).Keys) && rows == PutAll(old(rows), list)
      ensures full && seqNo >= old(serverSeq) ==>
        rows == PutAll(map[], list) && Enumerates(order, old(rows).Keys - rows.Keys)
        && outcome == if order == [] then Replaced else Reseeded
    {
      order := [];
      if !full {
        PutRows(list);
        serverSeq, gcFloor := seqNo, floor;
        return Delta, order;
      }
      var behind := seqNo < serverSeq;
      var before := rows;
      if !behind {
        rows := map[];
      }
      PutRows(list);
      var seeds;
      seeds, order := SeedFor(before, if behind then before.Keys else before.Keys - rows.Keys);
      serverSeq, gcFloor := seqNo, floor;
      EnqueueOps(seeds, wall);
      outcome := if behind || seeds != [] then Reseeded else Replaced;
      SeedCount(before, order);
    }

    static method SeedFor(table: Table, keys: set<Key>) returns (seeds: seq<RowOp>, ghost order: seq<Key>)
      requires keys <= table.Keys
      ensures Enumerates(order, keys)
      ensures (forall k :: k in order ==> k in table) && seeds == SeedOps(table, order)
    {
      seeds, order := [], [];
      var rest := keys;
      while rest != {}
        invariant rest <= keys
        invariant Enumerates(order, keys - rest)
        invariant (forall k :: k in order ==> k in table) && seeds == SeedOps(table, order)
        decreases rest
      {
        var k :| k in rest;
        var op := RowToSeedOp(table[k]);
        seeds := seeds + [op];
        assert (order + [k])[..|order|] == order;
        order := order + [k];
        rest := rest - {k};
      }
    }

    method PutRows(list: seq<Row>)
      requires Valid()
      modifies this`rows
      ensures Valid() && rows == PutAll(old(rows), list)
    {
      for i := 0 to |list|
        invariant Valid() && rows == PutAll(old(rows), list[..i])
      {
        assert list[..i + 1][..i] == list[..i];
        rows := Put(rows, list[i]);
      }
      assert list[..|list|] == list;
    }

    method ApplyRows(seqNo: nat, list: seq<Row>)
      requires Valid()
      modifies this`rows, this`serverSeq
      ensures Valid() && rows == PutAll(old(rows), list)
      ensures serverSeq == if seqNo > old(serverSeq) then seqNo else old(serverSeq)
    {
      PutRows(list);
      if seqNo > serverSeq {
        serverSeq := seqNo;
      }
    }

    method AckBatch(batch: string, seqNo: nat) returns (existed: bool)
      modifies this`pending, this`serverSeq
      ensures pending == Retire(old(pending), batch)
      ensures existed == (|Retire(old(pending), batch)| != |old(pending)|)
      ensures serverSeq == if seqNo > old(serverSeq) then seqNo else old(serverSeq)
    {
      var kept: seq<PendingBatch> := [];
      for i := 0 to |pending|
        invariant pending == old(pending) && kept == Retire(pending[..i], batch)
      {
        assert pending[..i + 1][..i] == pending[..i];
        if pending[i].batch != batch {
          kept := kept + [pending[i]];
        }
      }
      assert pending[..|pending|] == pending;
      existed := |kept| != |pending|;
      pending := kept;
      if seqNo > serverSeq {
        serverSeq := seqNo;
      }
    }

    method TakePushable() returns (out: seq<PendingBatch>)
      modifies this`pending
      ensures out == Pushable(old(pending))
      ensures pending == Flag(old(pending), true)
    {
      out := [];
      for i := 0 to |pending|
        invariant |pending| == |old(pending)|
        invariant pending[..i] == Flag(old(pending)[..i], true) && pending[i..] == old(pending)[i..]
        invariant out == Pushable(old(pending)[..i])
      {
        assert old(pending)[..i + 1][..i] == old(pending)[..i];
        assert pending[i] == old(pending)[i];
        ghost var was := pending;
        if !pending[i].inFlight {
          pending := pending[i := pending[i].(inFlight := true)];
          out := out + [pending[i]];
        }
        assert pending[..i + 1] == was[..i] + [pending[i]];
        assert pending[i + 1..] == was[i..][1..];
      }
      assert old(pending)[..|pending|] == old(pending) && pending[..|pending|] == pending;
    }

    method MarkDisconnected()
      modifies this`pending
      ensures pending == Flag(old(pending), false)
    {
      for i := 0 to |pending|
        invariant |pending| == |old(pending)|
        invariant pending[..i] == Flag(old(pending)[..i], false) && pending[i..] == old(pending)[i..]
      {
        assert old(pending)[..i + 1][..i] == old(pending)[..i];
        ghost var was := pending;
        assert pending[i] == old(pending)[i];
        pending := pending[i := pending[i].(inFlight := false)];
        assert pending[..i + 1] == was[..i] + [pending[i]];
        assert pending[i + 1..] == was[i..][1..];
      }
      assert old(pending)[..|pending|] == old(pending) && pending[..|pending|] == pending;
    }

    method OverlayRow(key: Key) returns (row: Option<Row>)
      ensures row == Visible(Overlay(rows, pending, key))
    {
      row := RowAt(rows, key);
      ghost var base, all := row, pending;
      for i := 0 to |pending|
        invariant row == Fold(base, OpsFor(key, Flatten(all[..i])))
      {
        assert all[..i + 1][..i] == all[..i];
        row := OverlayBatch(key, row, pending[i].ops, base, Flatten(all[..i]));
      }
      assert all[..|all|] == all;
      if row.Some? && row.value.deleted {
        row := None;
      }
    }
  }

  lemma {:induction false} SeedCount(rows: Table, order: seq<Key>)
    requires forall k :: k in order ==> k in rows
    ensures |SeedOps(rows, order)| == |order|
  {
    if order != [] {
      SeedCount(rows, order[..|order| - 1]);
    }
  }

  function Retire(pending: seq<PendingBatch>, batch: string): seq<PendingBatch> {
    if pending == [] then []
    else
      var last := pending[|pending| - 1];
      Retire(pending[..|pending| - 1], batch) + if last.batch == batch then [] else [last]
  }

  /** What a push takes: the batches not yet in flight, now marked so. */
  function Pushable(pending: seq<PendingBatch>): seq<PendingBatch> {
    if pending == [] then []
    else
      var last := pending[|pending| - 1];
      Pushable(pending[..|pending| - 1]) + if last.inFlight then [] else [last.(inFlight := true)]
  }

  function Flag(pending: seq<PendingBatch>, on: bool): seq<PendingBatch> {
    if pending == [] then []
    else Flag(pending[..|pending| - 1], on) + [pending[|pending| - 1].(inFlight := on)]
  }
}
