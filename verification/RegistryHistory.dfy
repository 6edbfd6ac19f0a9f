/** What every op keeps on a row, what tombstones guard, and what a re-seed op rebuilds. */
module RegistryHistory {
  import opened Common
  import opened Hlc
  import opened RegistryMerge

  ghost predicate RowOk(row: Row) {
    && (row.deleted ==> row.delHlc.Some? && row.fields == map[] && row.clocks == map[])
    && row.fields.Keys <= row.clocks.Keys
    && (forall f :: f in row.fields ==> row.fields[f] != Null)
  }

  ghost predicate Ok(row: Option<Row>) {
    row.Some? ==> RowOk(row.value)
  }

  ghost predicate NotOlder(a: Option<Clock>, b: Option<Clock>) {
    a.None? || (b.Some? && (a == b || Less(a.value, b.value)))
  }

  /** Every clock of `s` is matched by one at least as new in `t`. */
  ghost predicate Dominated(s: set<Clock>, t: set<Clock>) {
    forall c :: c in s ==> exists d :: d in t && (c == d || Less(c, d))
  }

  lemma {:induction false} DominatedNewest(s: set<Clock>, t: set<Clock>)
    requires Dominated(s, t)
    ensures NotOlder(NewestOf(s), NewestOf(t))
  {
    StrictTotalOrder();
    if NewestOf(s).Some? {
      var d :| d in t && (NewestOf(s).value == d || Less(NewestOf(s).value, d));
    }
  }

  lemma MergeOk(row: Row, op: RowOp)
    requires RowOk(row) && !row.deleted
    ensures RowOk(MergeFields(row, op))
    ensures Dominated(AllClocks(row), AllClocks(MergeFields(row, op)))
  {
    var next := MergeFields(row, op);
    forall c | c in AllClocks(row)
      ensures exists d :: d in AllClocks(next) && (c == d || Less(c, d))
    {
      if c in row.clocks.Values {
        var f :| f in row.clocks && row.clocks[f] == c;
        MergeAt(row, op, f);
        var d := next.clocks[f];
        assert d in next.clocks.Values;
        assert d in AllClocks(next) && (c == d || Less(c, d));
      } else {
        assert c == row.delHlc.value == next.delHlc.value;
        assert c in AllClocks(next) && (c == c || Less(c, c));
      }
    }
  }

  /** One op keeps the row shape, and the newest clock of the row never goes back. */
  lemma StepSafe(row: Option<Row>, op: RowOp)
    requires Ok(row)
    ensures Ok(ApplyOp(row, op))
    ensures row.Some? ==> ApplyOp(row, op).Some?
                          && NotOlder(MaxClock(row.value), MaxClock(ApplyOp(row, op).value))
  {
    match row {
      case None =>
        MergeOk(Blank(op.key, 0, None), op);
      case Some(r) =>
        var next := ApplyOp(row, op).value;
        assert Dominated(AllClocks(r), AllClocks(next)) by {
          if op.op.Delete? {
            if DeleteBeats(r, op.hlc) {
              BuryDominates(r, op.hlc);
            }
          } else if !r.deleted {
            MergeOk(r, op);
          } else {
            var blank := Blank(r.key, r.stamp, r.delHlc);
            assert AllClocks(r) == AllClocks(blank);
            MergeOk(blank, op);
          }
        }
        DominatedNewest(AllClocks(r), AllClocks(next));
        if !op.op.Delete? {
          if !r.deleted {
            MergeOk(r, op);
          } else {
            MergeOk(Blank(r.key, r.stamp, r.delHlc), op);
          }
        }
    }
  }

  lemma BuryDominates(r: Row, hlc: Clock)
    requires RowOk(r) && DeleteBeats(r, hlc)
    ensures Dominated(AllClocks(r), AllClocks(Bury(r, hlc)))
  {
    StrictTotalOrder();
    assert hlc in AllClocks(Bury(r, hlc));
    forall c | c in AllClocks(r)
      ensures Less(c, hlc)
    {
      if r.deleted {
        assert c == r.delHlc.value;
      } else {
        assert IsNewest(MaxClock(r), AllClocks(r));
      }
    }
  }

  /** Over any op sequence from nothing: tombstones carry no fields or clocks, every present field
      has a clock and is not null, and between any two moments the newest clock never goes back. */
  lemma {:induction false} HistorySafe(ops: seq<RowOp>, n: nat)
    requires n <= |ops|
    ensures Ok(Fold(None, ops[..n])) && Ok(Fold(None, ops))
    ensures Fold(None, ops[..n]).Some? ==>
      Fold(None, ops).Some?
      && NotOlder(MaxClock(Fold(None, ops[..n]).value), MaxClock(Fold(None, ops).value))
  {
    if |ops| == 0 {
      assert ops[..n] == ops;
    } else {
      var init := ops[..|ops| - 1];
      HistorySafe(init, if n < |ops| then n else n - 1);
      StepSafe(Fold(None, init), ops[|ops| - 1]);
      if n < |ops| {
        assert init[..n] == ops[..n];
        StrictTotalOrder();
      } else {
        assert ops[..n] == ops;
      }
    }
  }

  ghost predicate StampedUpTo(ops: seq<RowOp>, d: Clock) {
    forall k :: 0 <= k < |ops| ==> !Less(d, ops[k].hlc)
  }

  lemma {:induction false} TombstoneHolds(row: Row, ops: seq<RowOp>, d: Clock)
    requires row.deleted && row.delHlc == Some(d) && StampedUpTo(ops, d)
    ensures Fold(Some(row), ops) == Some(row)
  {
    if ops != [] {
      TombstoneHolds(row, ops[..|ops| - 1], d);
    }
  }

  /** After an accepted delete at clock `d`, ops stamped at or below `d` change nothing, however many
      arrive and whatever came before the delete. */
  lemma {:induction false} DeleteGuards(row: Option<Row>, drop: RowOp, late: seq<RowOp>)
    requires drop.op.Delete? && Changed(row, drop) && StampedUpTo(late, drop.hlc)
    ensures Fold(row, [drop] + late) == ApplyOp(row, drop)
    ensures ApplyOp(row, drop).Some? && ApplyOp(row, drop).value.deleted
  {
    FoldConcat(row, [drop], late);
    assert [drop][..0] == [];
    assert Fold(row, [drop]) == ApplyOp(row, drop);
    TombstoneHolds(ApplyOp(row, drop).value, late, drop.hlc);
  }

  // ── re-seeding ───────────────────────────────────────────────────────────

  const SEED_CLOCK: Clock := EncodeHlc(0, 0, "seed")

  ghost function SeedOp(row: Row): RowOp {
    if row.deleted then
      RowOp(row.key, Delete, None, if row.delHlc.Some? then row.delHlc.value else SEED_CLOCK, None)
    else
      RowOp(row.key, Upsert, Some(row.fields), if MaxClock(row).Some? then MaxClock(row).value else SEED_CLOCK,
            Some(row.clocks))
  }

  method RowToSeedOp(row: Row) returns (op: RowOp)
    ensures op == SeedOp(row)
  {
    if row.deleted {
      return RowOp(row.key, Delete, None, if row.delHlc.Some? then row.delHlc.value else SEED_CLOCK, None);
    }
    var max := ComputeMaxClock(row);
    return RowOp(row.key, Upsert, Some(row.fields), if max.Some? then max.value else SEED_CLOCK, Some(row.clocks));
  }

  /** The row a wiped server rebuilds: same key, same fields, same clock on every present field,
      same tombstone clock. */
  ghost function Rebuilt(row: Row): Row {
    Row(row.key, 0, row.deleted, if row.deleted then row.delHlc else None, row.fields,
        map f | f in row.clocks && f in row.fields :: row.clocks[f])
  }

  lemma SeedRebuilds(row: Row)
    requires RowOk(row)
    ensures ApplyOp(None, SeedOp(row)) == Some(Rebuilt(row))
  {
    if !row.deleted {
      var blank := Blank(row.key, 0, None);
      var got := MergeFields(blank, SeedOp(row));
      forall f
        ensures SameAt(got, Rebuilt(row), f)
      {
        MergeAt(blank, SeedOp(row), f);
      }
      SameRow(got, Rebuilt(row));
    }
  }

  /** Nothing of the row is lost exactly when it is a tombstone, or was never deleted and has no
      removed field: the clock of a removed field, and the tombstone a revival beat, do not travel. */
  lemma SeedIsLossless(row: Row)
    requires RowOk(row)
    ensures ApplyOp(None, SeedOp(row)) == Some(row.(stamp := 0)) <==>
      row.deleted || (row.delHlc.None? && row.clocks.Keys == row.fields.Keys)
  {
    SeedRebuilds(row);
    if row.deleted || (row.delHlc.None? && row.clocks.Keys == row.fields.Keys) {
      assert Rebuilt(row).clocks == row.clocks;
    }
    assert Rebuilt(row).clocks.Keys == row.fields.Keys;
  }

  /** A seed claims no clock of its own: a server that still has the row is left as it is. */
  lemma SeedIsIdempotent(row: Row)
    requires RowOk(row)
    ensures ApplyOp(Some(row), SeedOp(row)) == Some(row)
  {
    StrictTotalOrder();
    if !row.deleted {
      forall f ensures SameAt(MergeFields(row, SeedOp(row)), row, f) {
        MergeAt(row, SeedOp(row), f);
      }
      SameRow(MergeFields(row, SeedOp(row)), row);
    }
  }

  /** Against a tombstone a seeded row comes back exactly when some clock of its own is later; a row
      without any goes by the oldest clock there is. */
  lemma {:induction false} SeedMeetsTombstone(row: Row, tomb: Row, d: Clock)
    requires RowOk(row) && !row.deleted && tomb.deleted && tomb.delHlc == Some(d)
    ensures Live(ApplyOp(Some(tomb), SeedOp(row))) <==>
      || (exists c :: c in AllClocks(row) && Less(d, c))
      || (AllClocks(row) == {} && Less(d, "0000000000000-000000-seed"))
  {
    StrictTotalOrder();
    SeedClockIs();
    assert IsNewest(MaxClock(row), AllClocks(row));
  }

  lemma SeedClockIs()
    ensures SEED_CLOCK == "0000000000000-000000-seed"
  {
    EncodedShape(0, 0, "seed");
    FixedZero(13);
    FixedZero(6);
    ZerosAre();
  }

  lemma ZerosAre()
    ensures Zeros(6) == "000000" && Zeros(13) == "0000000000000"
  {
    assert Zeros(3) == "000";
    assert Zeros(6) == Zeros(3) + "000";
    assert Zeros(9) == Zeros(6) + "000";
    assert Zeros(12) == Zeros(9) + "000";
  }

  /** A field was set and then removed. The re-seeded row has forgotten when, and takes a stale write
      that the old row refuses. */
  lemma ReseedForgetsRemoval(key: Key)
    ensures var create := RowOp(key, Upsert, Some(map["a" := Str("x"), "b" := Str("y")]), "1", None);
      var clear := RowOp(key, Update, Some(map["b" := Null]), "3", None);
      var stale := RowOp(key, Update, Some(map["b" := Str("z")]), "2", None);
      var row := Fold(None, [create, clear]);
      && row.Some? && RowOk(row.value)
      && ApplyOp(None, SeedOp(row.value)) != Some(row.value.(stamp := 0))
      && ApplyOp(row, stale) == row
      && (var again := ApplyOp(ApplyOp(None, SeedOp(row.value)), stale);
          again.Some? && Get(again.value.fields, "b") == Some(Str("z")))
  {
    var stale := RowOp(key, Update, Some(map["b" := Str("z")]), "2", None);
    var row := Row(key, 0, false, None, map["a" := Str("x")], map["a" := "1", "b" := "3"]);
    SetAndRemoved(key);
    assert Less("2", "3") && !Less("3", "2");
    MergesTo(row, stale, row);
    SeedIsLossless(row);
    assert "b" in row.clocks.Keys && "b" !in row.fields.Keys;
    SeedRebuilds(row);
    assert "b" !in Rebuilt(row).clocks;
    MergeAt(Rebuilt(row), stale, "b");
  }

  lemma SetAndRemoved(key: Key)
    ensures var create := RowOp(key, Upsert, Some(map["a" := Str("x"), "b" := Str("y")]), "1", None);
      var clear := RowOp(key, Update, Some(map["b" := Null]), "3", None);
      Fold(None, [create, clear])
      == Some(Row(key, 0, false, None, map["a" := Str("x")], map["a" := "1", "b" := "3"]))
  {
    var create := RowOp(key, Upsert, Some(map["a" := Str("x"), "b" := Str("y")]), "1", None);
    var clear := RowOp(key, Update, Some(map["b" := Null]), "3", None);
    var made := Row(key, 0, false, None, map["a" := Str("x"), "b" := Str("y")], map["a" := "1", "b" := "1"]);
    FoldPair(None, create, clear);
    MergesTo(RegistryMerge.Blank(key, 0, None), create, made);
    Removed(key, made);
  }

  lemma Removed(key: Key, made: Row)
    requires made == Row(key, 0, false, None, map["a" := Str("x"), "b" := Str("y")], map["a" := "1", "b" := "1"])
    ensures MergeFields(made, RowOp(key, Update, Some(map["b" := Null]), "3", None))
         == Row(key, 0, false, None, map["a" := Str("x")], map["a" := "1", "b" := "3"])
  {
    assert Less("1", "3");
    MergesTo(made, RowOp(key, Update, Some(map["b" := Null]), "3", None),
             Row(key, 0, false, None, map["a" := Str("x")], map["a" := "1", "b" := "3"]));
  }

  /** Reading a merge off field by field. */
  lemma MergesTo(row: Row, op: RowOp, next: Row)
    requires next == row.(fields := next.fields, clocks := next.clocks)
    requires forall f :: f in row.clocks.Keys + row.fields.Keys + op.Writes().Keys + next.clocks.Keys + next.fields.Keys ==>
      Get(next.fields, f) == FieldAfter(row, op, f) && Get(next.clocks, f) == ClockAfter(row, op, f)
    ensures MergeFields(row, op) == next
  {
    forall f ensures SameAt(MergeFields(row, op), next, f) {
      MergeAt(row, op, f);
    }
    SameRow(MergeFields(row, op), next);
  }

  /** A row was deleted and made again: the re-seeded row has forgotten the tombstone. */
  lemma ReseedForgetsTombstone(key: Key)
    ensures var drop := RowOp(key, Delete, None, "5", None);
      var make := RowOp(key, Upsert, Some(map["a" := Str("x")]), "6", None);
      var row := Fold(None, [drop, make]);
      && row.Some? && RowOk(row.value) && row.value.delHlc == Some("5")
      && ApplyOp(None, SeedOp(row.value)) == Some(row.value.(stamp := 0, delHlc := None))
  {
    var drop := RowOp(key, Delete, None, "5", None);
    var make := RowOp(key, Upsert, Some(map["a" := Str("x")]), "6", None);
    FoldPair(None, drop, make);
    var row := Row(key, 0, false, Some("5"), map["a" := Str("x")], map["a" := "6"]);
    assert ApplyOp(None, drop) == Some(Row(key, 0, true, Some("5"), map[], map[]));
    assert Less("5", "6");
    MergesTo(RegistryMerge.Blank(key, 0, Some("5")), make, row);
    SeedRebuilds(row);
    assert Rebuilt(row).clocks == row.clocks;
  }
}
