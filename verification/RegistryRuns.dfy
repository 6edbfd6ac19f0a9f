/** What the replica keeps over whole runs: recovery from a server wipe, a stable overlay across an
    acknowledgement, and one push per connection. */
module RegistryRuns {
  import opened Common
  import opened Hlc
  import opened RegistryMerge
  import opened RegistryHistory
  import opened RegistryDoc

  // ── wipe recovery ────────────────────────────────────────────────────────

  ghost predicate TableOk(rows: Table) {
    forall k :: k in rows ==> rows[k].key == k && RowOk(rows[k])
  }

  ghost function RebuiltTable(rows: Table): Table {
    map k | k in rows :: Rebuilt(rows[k])
  }

  lemma {:induction false} ReplaySeeds(rows: Table, order: seq<Key>)
    requires TableOk(rows) && (forall k :: k in order ==> k in rows)
    requires forall i, j :: 0 <= i < j < |order| ==> order[i] != order[j]
    ensures var got := Replay(map[], SeedOps(rows, order));
      && (forall k :: k in got <==> k in order)
      && (forall k :: k in got ==> k in rows && got[k] == Rebuilt(rows[k]))
  {
    if order != [] {
      var init, k := order[..|order| - 1], order[|order| - 1];
      ReplaySeeds(rows, init);
      assert k !in init;
      assert init + [k] == order;
      ReplaySeed(rows, init, k);
    }
  }

  /** One more seed adds its row to a table without it. */
  lemma {:induction false} ReplaySeed(rows: Table, init: seq<Key>, k: Key)
    requires TableOk(rows) && (forall j :: j in init + [k] ==> j in rows)
    requires k !in Replay(map[], SeedOps(rows, init))
    ensures Replay(map[], SeedOps(rows, init + [k])) == Replay(map[], SeedOps(rows, init))[k := Rebuilt(rows[k])]
  {
    assert (init + [k])[..|init|] == init;
    ReplayPush(map[], SeedOps(rows, init), SeedOp(rows[k]));
    SeedRebuilds(rows[k]);
  }

  lemma {:induction false} ReplayPush(rows: Table, ops: seq<RowOp>, op: RowOp)
    ensures var before := Replay(rows, ops);
      var row := ApplyOp(RowAt(before, op.key), op);
      Replay(rows, ops + [op]) == if row.None? then before else before[op.key := row.value]
  {
    assert (ops + [op])[..|ops|] == ops;
  }

  /** After a full state frame from a server that lost everything, pushing the enqueued batches to
      the empty server rebuilds every row, in whatever order the local table was walked. */
  lemma {:induction false} WipeRecovery(rows: Table, order: seq<Key>, s: ClockState, device: string, wall: nat -> int)
    requires TableOk(rows) && Enumerates(order, rows.Keys)
    ensures Replay(map[], Flatten(Chunk(SeedOps(rows, order), s, device, wall, 0))) == RebuiltTable(rows)
  {
    ChunkExact(SeedOps(rows, order), s, device, wall, 0);
    SeedsRebuild(rows, order);
  }

  lemma {:induction false} SeedsRebuild(rows: Table, order: seq<Key>)
    requires TableOk(rows) && Enumerates(order, rows.Keys)
    ensures Replay(map[], SeedOps(rows, order)) == RebuiltTable(rows)
  {
    ReplaySeeds(rows, order);
    var got := Replay(map[], SeedOps(rows, order));
    assert got.Keys == RebuiltTable(rows).Keys;
  }

  /** The same, as the object does it: a wiped server answers with a full state, no rows and a lower seq. */
  method RecoverFromWipe(replica: Replica, seqNo: nat, floor: nat, wall: nat -> int)
    requires replica.Valid() && TableOk(replica.rows) && replica.pending == [] && seqNo < replica.serverSeq
    modifies replica, replica.hlc
    ensures replica.rows == old(replica.rows)
    ensures Replay(map[], Flatten(replica.pending)) == RebuiltTable(old(replica.rows))
    ensures forall b :: b in replica.pending ==> |b.ops| <= MAX_OPS_PER_BATCH
  {
    ghost var clock := replica.Clock();
    ghost var rows := replica.rows;
    var outcome, order := replica.ApplyState(seqNo, true, floor, [], wall);
    WipeRecovery(rows, order, clock, replica.device, wall);
    ChunkExact(SeedOps(rows, order), clock, replica.device, wall, 0);
    assert replica.pending == Chunk(SeedOps(rows, order), clock, replica.device, wall, 0);
  }

  // ── the optimistic overlay ───────────────────────────────────────────────

  ghost function Restamp(row: Row, stamp: nat): Row {
    row.(stamp := stamp)
  }

  /** The server's sequence stamp rides along untouched. */
  lemma {:induction false} FoldRestamped(row: Row, ops: seq<RowOp>, stamp: nat)
    requires !row.deleted && DeleteFree(ops)
    ensures Fold(Some(row), ops).Some? && !Fold(Some(row), ops).value.deleted
    ensures Fold(Some(Restamp(row, stamp)), ops) == Some(Restamp(Fold(Some(row), ops).value, stamp))
  {
    if ops != [] {
      FoldRestamped(row, ops[..|ops| - 1], stamp);
      var r, op := Fold(Some(row), ops[..|ops| - 1]).value, ops[|ops| - 1];
      MergeRestamped(r, op, stamp);
    }
  }

  lemma MergeRestamped(row: Row, op: RowOp, stamp: nat)
    ensures MergeFields(Restamp(row, stamp), op) == Restamp(MergeFields(row, op), stamp)
  {
    var a, b := MergeFields(Restamp(row, stamp), op), Restamp(MergeFields(row, op), stamp);
    forall f
      ensures SameAt(a, b, f)
    {
      MergeAt(row, op, f);
      MergeAt(Restamp(row, stamp), op, f);
    }
    SameRow(a, b);
  }

  lemma {:induction false} AllWritesConcat(a: seq<RowOp>, b: seq<RowOp>)
    ensures AllWrites(a + b) == AllWrites(a) + AllWrites(b)
  {
    if b == [] {
      assert a + b == a;
    } else {
      assert (a + b)[..|a + b| - 1] == a + b[..|b| - 1];
      AllWritesConcat(a, b[..|b| - 1]);
    }
  }

  /** `base` is the live row both sides started from; the server merged the ops of our first batch
      with the other devices' ops in some order (`mix`) and stamped the result. What this device
      shows after receiving that row, before and after the batch is acknowledged, is what it showed
      before joined with the other devices' writes: nothing flickers and nothing is lost. */
  lemma {:induction false} OverlayStable(base: Row, first: seq<RowOp>, rest: seq<RowOp>, others: seq<RowOp>,
                                         mix: seq<RowOp>, stamp: nat)
    requires !base.deleted
    requires DeleteFree(first) && DeleteFree(rest) && DeleteFree(others) && DeleteFree(mix)
    requires AllWrites(mix) == AllWrites(first) + AllWrites(others)
    requires Consistent(RowWrites(base) + (AllWrites(first) + AllWrites(rest) + AllWrites(others)))
    ensures Fold(Some(base), mix).Some?
    ensures var merged := Restamp(Fold(Some(base), mix).value, stamp);
      var shown := Fold(Some(base), first + rest);
      var joined := Fold(shown, others);
      && joined.Some?
      && Fold(Some(merged), first + rest) == Some(Restamp(joined.value, stamp))
      && Fold(Some(merged), rest) == Some(Restamp(joined.value, stamp))
  {
    var mine := first + rest;
    var target := mine + others;
    var all := AllWrites(first) + AllWrites(rest) + AllWrites(others);
    assert AllWrites(mine) == AllWrites(first) + AllWrites(rest) by {
      AllWritesConcat(first, rest);
    }
    assert AllWrites(target) == all by {
      AllWritesConcat(mine, others);
    }
    assert AllWrites(mix) + AllWrites(mine) == all;
    assert AllWrites(mix) + AllWrites(rest) == all;
    Absorb(base, mix, mine, target, stamp);
    Absorb(base, mix, rest, target, stamp);
    FoldConcat(Some(base), mine, others);
  }

  /** Replaying `extra` over the stamped merge of `mix` is the merge of `target` when the writes agree. */
  lemma {:induction false} Absorb(base: Row, mix: seq<RowOp>, extra: seq<RowOp>, target: seq<RowOp>, stamp: nat)
    requires !base.deleted && DeleteFree(mix) && DeleteFree(extra) && DeleteFree(target)
    requires AllWrites(mix) + AllWrites(extra) == AllWrites(target)
    requires Consistent(RowWrites(base) + AllWrites(target))
    ensures Fold(Some(base), mix).Some? && Fold(Some(base), target).Some?
    ensures Fold(Some(Restamp(Fold(Some(base), mix).value, stamp)), extra)
            == Some(Restamp(Fold(Some(base), target).value, stamp))
  {
    FoldRestamped(base, mix, stamp);
    FoldRestamped(Fold(Some(base), mix).value, extra, stamp);
    FoldConcat(Some(base), mix, extra);
    AllWritesConcat(mix, extra);
    Convergence(base, mix + extra, target);
  }

  /** The same for the replica's own data: one key, a list of pending batches, one of them acknowledged. */
  lemma {:induction false} AckKeepsOverlay(rows: Table, key: Key, first: PendingBatch, rest: seq<PendingBatch>,
                                           others: seq<RowOp>, mix: seq<RowOp>, stamp: nat)
    requires key in rows && !rows[key].deleted && rows[key].key == key
    requires DeleteFree(OpsFor(key, first.ops)) && DeleteFree(OpsFor(key, Flatten(rest)))
    requires DeleteFree(others) && DeleteFree(mix)
    requires AllWrites(mix) == AllWrites(OpsFor(key, first.ops)) + AllWrites(others)
    requires Consistent(RowWrites(rows[key])
      + (AllWrites(OpsFor(key, first.ops)) + AllWrites(OpsFor(key, Flatten(rest))) + AllWrites(others)))
    ensures Fold(Some(rows[key]), mix).Some?
    ensures var merged := Restamp(Fold(Some(rows[key]), mix).value, stamp);
      var joined := Fold(Overlay(rows, [first] + rest, key), others);
      && joined.Some?
      && merged.key == key
      && Overlay(Put(rows, merged), [first] + rest, key) == Some(Restamp(joined.value, stamp))
      && Overlay(Put(rows, merged), rest, key) == Some(Restamp(joined.value, stamp))
  {
    FlattenConcat([first], rest);
    assert Flatten([first]) == first.ops by {
      assert [first][..0] == [];
    }
    OpsForConcat(key, first.ops, Flatten(rest));
    OverlayStable(rows[key], OpsFor(key, first.ops), OpsFor(key, Flatten(rest)), others, mix, stamp);
    FoldJoins(rows[key], mix);
  }
}
