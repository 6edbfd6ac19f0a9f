/**
 What the replica's queue and row operations take, leave and keep in order (crates/doc/src/registry.rs),
 told place by place.
 */
module RegistryQueue {
  import opened Common
  import opened Hlc
  import opened Picking
  import opened RegistryMerge
  import opened RegistryDoc

  // ── batches ──────────────────────────────────────────────────────────────

  /** Chunking makes as few batches as the cap allows: all but the last hold exactly 400 ops. */
  lemma {:induction false} ChunkFull(ops: seq<RowOp>, s: ClockState, device: string, wall: nat -> int, k: nat)
    ensures var batches := Chunk(ops, s, device, wall, k);
      && (forall i :: 0 <= i < |batches| - 1 ==> |batches[i].ops| == 400)
      && |batches| == (|ops| + 399) / 400
    decreases |ops|
  {
    if ops != [] {
      var t := Tick(s, wall(k));
      ChunkFull(ops[Head(ops)..], t, device, wall, k + 1);
      var batches, rest := Chunk(ops, s, device, wall, k), Chunk(ops[Head(ops)..], t, device, wall, k + 1);
      forall i | 0 <= i < |batches| - 1 ensures |batches[i].ops| == 400 {
        assert i > 0 ==> batches[i] == rest[i - 1];
      }
    }
  }

  /** Places of the batches with another id. */
  ghost function OtherIds(pending: seq<PendingBatch>, batch: string): (marks: seq<bool>)
    ensures |marks| == |pending| && forall i :: 0 <= i < |pending| ==> marks[i] == (pending[i].batch != batch)
  {
    seq(|pending|, i requires 0 <= i < |pending| => pending[i].batch != batch)
  }

  /** An acknowledgement takes out every batch with its id and leaves the rest in order. */
  lemma {:induction false} RetireExactly(pending: seq<PendingBatch>, batch: string)
    ensures Picks(Retire(pending, batch), pending, OtherIds(pending, batch))
  {
    if pending != [] {
      var init := pending[..|pending| - 1];
      RetireExactly(init, batch);
      assert OtherIds(pending, batch)[..|init|] == OtherIds(init, batch);
      PicksSnoc(Retire(init, batch), Retire(pending, batch), pending, OtherIds(pending, batch));
    }
  }

  ghost function NotInFlight(pending: seq<PendingBatch>): (marks: seq<bool>)
    ensures |marks| == |pending| && forall i :: 0 <= i < |pending| ==> marks[i] == !pending[i].inFlight
  {
    seq(|pending|, i requires 0 <= i < |pending| => !pending[i].inFlight)
  }

  ghost function Flagged(pending: seq<PendingBatch>, on: bool): (out: seq<PendingBatch>)
    ensures |out| == |pending|
    ensures forall i :: 0 <= i < |pending| ==> out[i] == PendingBatch(pending[i].batch, pending[i].ops, on)
  {
    seq(|pending|, i requires 0 <= i < |pending| => PendingBatch(pending[i].batch, pending[i].ops, on))
  }

  /** A push takes the batches that are not in flight, oldest first. */
  lemma {:induction false} PushExactly(pending: seq<PendingBatch>)
    ensures Picks(Pushable(pending), Flagged(pending, true), NotInFlight(pending))
  {
    if pending != [] {
      var init := pending[..|pending| - 1];
      PushExactly(init);
      assert NotInFlight(pending)[..|init|] == NotInFlight(init) && Flagged(pending, true)[..|init|] == Flagged(init, true);
      PicksSnoc(Pushable(init), Pushable(pending), Flagged(pending, true), NotInFlight(pending));
    }
  }

  /** Afterwards all are in flight, and after a disconnect none is, with ids, ops and order kept. */
  lemma {:induction false} FlagExactly(pending: seq<PendingBatch>, on: bool)
    ensures Flag(pending, on) == Flagged(pending, on)
  {
    if pending != [] {
      FlagExactly(pending[..|pending| - 1], on);
    }
  }

  // ── rows ─────────────────────────────────────────────────────────────────

  /** The last row of the list filed under this key. */
  ghost predicate LastFor(list: seq<Row>, key: Key, i: nat) {
    i < |list| && list[i].key == key && forall j :: i < j < |list| ==> list[j].key != key
  }

  /** Putting a list of rows replaces each key it names by the last row for it, whole, and nothing else. */
  lemma {:induction false} PutAllExactly(rows: Table, list: seq<Row>, key: Key)
    ensures forall i: nat :: LastFor(list, key, i) ==> RowAt(PutAll(rows, list), key) == Some(list[i])
    ensures (forall i :: 0 <= i < |list| ==> list[i].key != key) ==> RowAt(PutAll(rows, list), key) == RowAt(rows, key)
  {
    forall i: nat | LastFor(list, key, i) ensures RowAt(PutAll(rows, list), key) == Some(list[i]) {
      PutLast(rows, list, key, i);
    }
    if forall i :: 0 <= i < |list| ==> list[i].key != key {
      PutElsewhere(rows, list, key);
    }
  }

  lemma {:induction false} PutLast(rows: Table, list: seq<Row>, key: Key, i: nat)
    requires LastFor(list, key, i)
    ensures RowAt(PutAll(rows, list), key) == Some(list[i])
  {
    var init := list[..|list| - 1];
    if i < |init| {
      assert init[i] == list[i] && list[|list| - 1].key != key;
      PutLast(rows, init, key, i);
    }
  }

  lemma {:induction false} PutElsewhere(rows: Table, list: seq<Row>, key: Key)
    requires forall i :: 0 <= i < |list| ==> list[i].key != key
    ensures RowAt(PutAll(rows, list), key) == RowAt(rows, key)
  {
    if list != [] {
      PutElsewhere(rows, list[..|list| - 1], key);
    }
  }
}
