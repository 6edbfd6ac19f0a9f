/**
 The last-writer-wins row merge of the workspace registry (crates/doc/src/registry.rs,
 edge/src/registry-core.ts). A field write applies iff its clock beats the stored one; a delete
 leaves a tombstone; only a newer upsert revives a tombstone.
 */
module RegistryMerge {
  import opened Common
  import opened Hlc

  /** JSON values: only null and strings are told apart, the rest is opaque text. */
  datatype Value = Null | Str(text: string) | Other(json: string)

  datatype Key = Key(kind: string, id: string)

  datatype Row = Row(key: Key, stamp: nat, deleted: bool, delHlc: Option<Clock>,
                     fields: map<string, Value>, clocks: map<string, Clock>)

  datatype OpKind = Upsert | Update | Delete

  datatype RowOp = RowOp(key: Key, op: OpKind, writes: Option<map<string, Value>>, hlc: Clock,
                         clocks: Option<map<string, Clock>>)
  {
    function ClockFor(field: string): Clock {
      if clocks.Some? && field in clocks.value then clocks.value[field] else hlc
    }

    function Writes(): map<string, Value> {
      if writes.Some? then writes.value else map[]
    }
  }

  function Get<T>(m: map<string, T>, f: string): Option<T> {
    if f in m then Some(m[f]) else None
  }

  /** `a` strictly newer than `b`; nothing written yet loses to any clock. */
  predicate Newer(a: Clock, b: Option<Clock>) {
    b.None? || Less(b.value, a)
  }

  // ── the newest clock of a row ────────────────────────────────────────────

  ghost function AllClocks(row: Row): set<Clock> {
    row.clocks.Values + if row.delHlc.Some? then {row.delHlc.value} else {}
  }

  ghost predicate IsNewest(m: Option<Clock>, s: set<Clock>) {
    && (m.None? <==> s == {})
    && (m.Some? ==> m.value in s && forall c :: c in s ==> c == m.value || Less(c, m.value))
  }

  ghost function NewestOf(s: set<Clock>): (m: Option<Clock>)
    ensures IsNewest(m, s)
  {
    StrictTotalOrder();
    if s == {} then None
    else
      var c :| c in s;
      assert s == (s - {c}) + {c};
      var m := NewestOf(s - {c});
      if Newer(c, m) then Some(c) else m
  }

  ghost function MaxClock(row: Row): Option<Clock> {
    NewestOf(AllClocks(row))
  }

  lemma {:induction false} NewestUnique(m: Option<Clock>, s: set<Clock>)
    requires IsNewest(m, s)
    ensures m == NewestOf(s)
  {
    StrictTotalOrder();
  }

  method ComputeMaxClock(row: Row) returns (max: Option<Clock>)
    ensures max == MaxClock(row)
  {
    max := row.delHlc;
    var rest := row.clocks.Keys;
    ghost var seen: set<Clock> := if row.delHlc.Some? then {row.delHlc.value} else {};
    StrictTotalOrder();
    while rest != {}
      invariant rest <= row.clocks.Keys
      invariant seen == (set f | f in row.clocks && f !in rest :: row.clocks[f])
                        + if row.delHlc.Some? then {row.delHlc.value} else {}
      invariant IsNewest(max, seen)
      decreases rest
    {
      var f :| f in rest;
      var clock := row.clocks[f];
      if Newer(clock, max) {
        max := Some(clock);
      }
      seen := seen + {clock};
      rest := rest - {f};
    }
    assert seen == AllClocks(row);
    NewestUnique(max, seen);
  }

  // ── apply_op ─────────────────────────────────────────────────────────────

  predicate Wins(row: Row, op: RowOp, f: string) {
    f in op.Writes() && Newer(op.ClockFor(f), Get(row.clocks, f))
  }

  /** The field writes of `op` that beat the row's clocks, applied. A null removes the field but
      still records its clock. */
  function MergeFields(row: Row, op: RowOp): Row {
    row.(
      fields := map f | f in row.fields.Keys + op.Writes().Keys
                        && (if Wins(row, op, f) then op.Writes()[f] != Null else f in row.fields)
                :: if Wins(row, op, f) then op.Writes()[f] else row.fields[f],
      clocks := map f | f in row.clocks.Keys + op.Writes().Keys
                        && (Wins(row, op, f) || f in row.clocks)
                :: if Wins(row, op, f) then op.ClockFor(f) else row.clocks[f])
  }

  function Blank(key: Key, stamp: nat, delHlc: Option<Clock>): Row {
    Row(key, stamp, false, delHlc, map[], map[])
  }

  function Bury(row: Row, hlc: Clock): Row {
    row.(deleted := true, delHlc := Some(hlc), fields := map[], clocks := map[])
  }

  /** A delete beats a live row when it is newer than every clock on it. */
  ghost predicate DeleteBeats(row: Row, hlc: Clock) {
    Newer(hlc, if row.deleted then row.delHlc else MaxClock(row))
  }

  /** The row after `op`, `None` only for an update of a missing row. */
  ghost function ApplyOp(row: Option<Row>, op: RowOp): Option<Row> {
    match (op.op, row)
    case (Delete, None) => Some(Bury(Blank(op.key, 0, None), op.hlc))
    case (Delete, Some(r)) => if DeleteBeats(r, op.hlc) then Some(Bury(r, op.hlc)) else row
    case (Update, None) => None
    case (Upsert, None) => Some(MergeFields(Blank(op.key, 0, None), op))
    case (_, Some(r)) =>
      if !r.deleted then Some(MergeFields(r, op))
      else if op.op.Update? || !Newer(op.hlc, r.delHlc) then row
      else Some(MergeFields(Blank(r.key, r.stamp, r.delHlc), op))
  }

  ghost function Changed(row: Option<Row>, op: RowOp): bool {
    match (op.op, row)
    case (Delete, None) => true
    case (Delete, Some(r)) => DeleteBeats(r, op.hlc)
    case (Update, None) => false
    case (Upsert, None) => true
    case (_, Some(r)) =>
      if !r.deleted then exists f :: f in op.Writes() && Wins(r, op, f)
      else !(op.op.Update? || !Newer(op.hlc, r.delHlc))
  }

  /** The loop form: clone the row, then go through the writes one by one. */
  method Apply(row: Option<Row>, op: RowOp) returns (next: Option<Row>, changed: bool)
    ensures next == ApplyOp(row, op)
    ensures changed == Changed(row, op)
  {
    if op.op.Delete? {
      if row.None? {
        return Some(Bury(Blank(op.key, 0, None), op.hlc)), true;
      }
      var newest := row.value.delHlc;
      if !row.value.deleted {
        newest := ComputeMaxClock(row.value);
      }
      if Newer(op.hlc, newest) {
        return Some(Bury(row.value, op.hlc)), true;
      }
      return row, false;
    }
    var base: Row;
    if row.None? {
      if op.op.Update? {
        return None, false;
      }
      base := Blank(op.key, 0, None);
    } else if row.value.deleted {
      if op.op.Update? || !Newer(op.hlc, row.value.delHlc) {
        return row, false;
      }
      base := Blank(row.value.key, row.value.stamp, row.value.delHlc);
    } else {
      base := row.value;
    }
    var merged, any := MergeWrites(base, op);
    changed := row.None? || row.value.deleted || any;
    next := Some(merged);
  }

  ghost function FieldAfter(row: Row, op: RowOp, f: string): Option<Value> {
    if Wins(row, op, f) then if op.Writes()[f] == Null then None else Some(op.Writes()[f])
    else Get(row.fields, f)
  }

  ghost function ClockAfter(row: Row, op: RowOp, f: string): Option<Clock> {
    if Wins(row, op, f) then Some(op.ClockFor(f)) else Get(row.clocks, f)
  }

  lemma MergeAt(row: Row, op: RowOp, f: string)
    ensures Get(MergeFields(row, op).fields, f) == FieldAfter(row, op, f)
    ensures Get(MergeFields(row, op).clocks, f) == ClockAfter(row, op, f)
  {
  }

  /** Field `f` of `base` is done. */
  ghost predicate MergedAt(base: Row, row: Row, op: RowOp, f: string) {
    Get(base.fields, f) == FieldAfter(row, op, f) && Get(base.clocks, f) == ClockAfter(row, op, f)
  }

  method MergeWrites(row: Row, op: RowOp) returns (base: Row, changed: bool)
    ensures base == MergeFields(row, op)
    ensures changed == exists f :: f in op.Writes() && Wins(row, op, f)
  {
    base, changed := row, false;
    var rest := op.Writes().Keys;
    while rest != {}
      invariant rest <= op.Writes().Keys && PartlyMerged(base, row, op, rest)
      invariant changed == exists f :: f in op.Writes() && f !in rest && Wins(row, op, f)
      decreases rest
    {
      var f :| f in rest;
      MergeOne(base, row, op, rest, f);
      if Newer(op.ClockFor(f), Get(base.clocks, f)) {
        base := WriteOne(base, f, op.Writes()[f], op.ClockFor(f));
        changed := true;
      }
      rest := rest - {f};
    }
    FullyMerged(base, row, op);
  }

  /** All fields but those in `rest` are done. */
  ghost predicate PartlyMerged(base: Row, row: Row, op: RowOp, rest: set<string>) {
    && base == row.(fields := base.fields, clocks := base.clocks)
    && (forall f :: f in rest ==> SameAt(base, row, f))
    && (forall f :: f !in rest ==> MergedAt(base, row, op, f))
  }

  lemma MergeOne(base: Row, row: Row, op: RowOp, rest: set<string>, f: string)
    requires f in rest && f in op.Writes() && PartlyMerged(base, row, op, rest)
    ensures Newer(op.ClockFor(f), Get(base.clocks, f)) <==> Wins(row, op, f)
    ensures PartlyMerged(if Wins(row, op, f) then WriteOne(base, f, op.Writes()[f], op.ClockFor(f)) else base,
                         row, op, rest - {f})
  {
    assert SameAt(base, row, f);
    var next := if Wins(row, op, f) then WriteOne(base, f, op.Writes()[f], op.ClockFor(f)) else base;
    WriteOneElsewhere(base, next, f);
    forall g | g !in rest - {f} ensures MergedAt(next, row, op, g) {
      assert g != f ==> MergedAt(base, row, op, g);
    }
    forall g | g in rest - {f} ensures SameAt(next, row, g) {
      assert SameAt(base, row, g);
    }
  }

  lemma FullyMerged(base: Row, row: Row, op: RowOp)
    requires PartlyMerged(base, row, op, {})
    ensures base == MergeFields(row, op)
  {
    forall f
      ensures SameAt(base, MergeFields(row, op), f)
    {
      MergeAt(row, op, f);
      assert MergedAt(base, row, op, f);
    }
    SameRow(base, MergeFields(row, op));
  }

  lemma WriteOneElsewhere(was: Row, base: Row, f: string)
    requires base == was || exists v, c :: base == WriteOne(was, f, v, c)
    ensures forall g :: g != f ==> SameAt(base, was, g)
  {
  }

  function WriteOne(row: Row, f: string, value: Value, clock: Clock): Row {
    row.(fields := if value == Null then row.fields - {f} else row.fields[f := value],
         clocks := row.clocks[f := clock])
  }

  ghost predicate SameAt(a: Row, b: Row, f: string) {
    Get(a.fields, f) == Get(b.fields, f) && Get(a.clocks, f) == Get(b.clocks, f)
  }

  lemma SameByGet<T>(a: map<string, T>, b: map<string, T>)
    requires forall f :: Get(a, f) == Get(b, f)
    ensures a == b
  {
    forall f
      ensures f in a <==> f in b
      ensures f in a && f in b ==> a[f] == b[f]
    {
      assert Get(a, f) == Get(b, f);
    }
  }

  lemma SameRow(a: Row, b: Row)
    requires a == b.(fields := a.fields, clocks := a.clocks)
    requires forall f :: SameAt(a, b, f)
    ensures a == b
  {
    forall f
      ensures Get(a.fields, f) == Get(b.fields, f) && Get(a.clocks, f) == Get(b.clocks, f)
    {
      assert SameAt(a, b, f);
    }
    SameByGet(a.fields, b.fields);
    SameByGet(a.clocks, b.clocks);
  }

  ghost function Fold(row: Option<Row>, ops: seq<RowOp>): Option<Row> {
    if ops == [] then row else ApplyOp(Fold(row, ops[..|ops| - 1]), ops[|ops| - 1])
  }

  lemma {:induction false} FoldPair(row: Option<Row>, a: RowOp, b: RowOp)
    ensures Fold(row, [a, b]) == ApplyOp(ApplyOp(row, a), b)
  {
    assert [a, b][..1] == [a] && [a][..0] == [];
    assert Fold(row, [a]) == ApplyOp(row, a);
  }

  lemma {:induction false} FoldConcat(row: Option<Row>, a: seq<RowOp>, b: seq<RowOp>)
    ensures Fold(row, a + b) == Fold(Fold(row, a), b)
  {
    if b == [] {
      assert a + b == a;
    } else {
      assert (a + b)[..|a + b| - 1] == a + b[..|b| - 1];
      FoldConcat(row, a, b[..|b| - 1]);
    }
  }

  // ── convergence ──────────────────────────────────────────────────────────

  /** A write of one field: the value it leaves (`None` when it removes the field) and its clock. */
  datatype Write = Write(field: string, value: Option<Value>, clock: Clock)

  ghost function OpWrites(op: RowOp): set<Write> {
    set f | f in op.Writes() :: Write(f, if op.Writes()[f] == Null then None else Some(op.Writes()[f]), op.ClockFor(f))
  }

  ghost function RowWrites(row: Row): set<Write> {
    set f | f in row.clocks :: Write(f, Get(row.fields, f), row.clocks[f])
  }

  ghost function AllWrites(ops: seq<RowOp>): set<Write> {
    if ops == [] then {} else AllWrites(ops[..|ops| - 1]) + OpWrites(ops[|ops| - 1])
  }

  /** `w` is a newest write of its field. */
  ghost predicate Newest(ws: set<Write>, w: Write) {
    w in ws && forall v :: v in ws && v.field == w.field ==> v.clock == w.clock || Less(v.clock, w.clock)
  }

  /** `r` is `row` with every written field at its newest write among `ws` and the row's own. */
  ghost predicate Joins(row: Row, ws: set<Write>, r: Row) {
    && r == row.(fields := r.fields, clocks := r.clocks)
    && (forall f :: f in r.clocks ==> Newest(RowWrites(row) + ws, Write(f, Get(r.fields, f), r.clocks[f])))
    && (forall w :: w in RowWrites(row) + ws ==> w.field in r.clocks)
    && (forall f :: f !in r.clocks ==> Get(r.fields, f) == Get(row.fields, f))
  }

  /** Two writes of a field with the same clock leave the same value: clocks name their write. */
  ghost predicate Consistent(ws: set<Write>) {
    forall v, w :: v in ws && w in ws && v.field == w.field && v.clock == w.clock ==> v == w
  }

  ghost predicate DeleteFree(ops: seq<RowOp>) {
    forall k :: 0 <= k < |ops| ==> !ops[k].op.Delete?
  }

  lemma JoinsUnique(row: Row, ws: set<Write>, r: Row, s: Row)
    requires Joins(row, ws, r) && Joins(row, ws, s) && Consistent(RowWrites(row) + ws)
    ensures r == s
  {
    StrictTotalOrder();
    forall f
      ensures SameAt(r, s, f)
    {
      if f in s.clocks {
        JoinsCovers(row, ws, s, r, f);
      }
      if f in r.clocks {
        JoinsCovers(row, ws, r, s, f);
        var all := RowWrites(row) + ws;
        assert Newest(all, Write(f, Get(r.fields, f), r.clocks[f]));
        assert Newest(all, Write(f, Get(s.fields, f), s.clocks[f]));
      }
    }
    SameRow(r, s);
  }

  lemma JoinsCovers(row: Row, ws: set<Write>, r: Row, s: Row, f: string)
    requires Joins(row, ws, r) && Joins(row, ws, s) && f in r.clocks
    ensures f in s.clocks
  {
    var w := Write(f, Get(r.fields, f), r.clocks[f]);
    assert Newest(RowWrites(row) + ws, w);
    assert w.field in s.clocks;
  }

  lemma JoinsStep(row: Row, ws: set<Write>, r: Row, op: RowOp)
    requires Joins(row, ws, r)
    ensures Joins(row, ws + OpWrites(op), MergeFields(r, op))
  {
    var next := MergeFields(r, op);
    var all := RowWrites(row) + ws + OpWrites(op);
    assert RowWrites(row) + (ws + OpWrites(op)) == all;
    forall f | f in next.clocks
      ensures Newest(all, Write(f, Get(next.fields, f), next.clocks[f]))
    {
      NewestStep(row, ws, r, op, f);
    }
    forall w | w in all
      ensures w.field in next.clocks
    {
      if w in OpWrites(op) {
        assert w.field in op.Writes();
      } else {
        assert w in RowWrites(row) + ws;
      }
    }
    forall f | f !in next.clocks
      ensures Get(next.fields, f) == Get(row.fields, f)
    {
      assert f !in r.clocks && !Wins(r, op, f);
      assert Get(next.fields, f) == Get(r.fields, f);
    }
  }

  lemma NewestStep(row: Row, ws: set<Write>, r: Row, op: RowOp, f: string)
    requires Joins(row, ws, r) && f in MergeFields(r, op).clocks
    ensures var next := MergeFields(r, op);
      Newest(RowWrites(row) + ws + OpWrites(op), Write(f, Get(next.fields, f), next.clocks[f]))
  {
    StrictTotalOrder();
    var next := MergeFields(r, op);
    var before := RowWrites(row) + ws;
    var w := Write(f, Get(next.fields, f), next.clocks[f]);
    assert f in r.clocks ==> Newest(before, Write(f, Get(r.fields, f), r.clocks[f]));
    if Wins(r, op, f) {
      assert w in OpWrites(op);
    } else {
      assert w == Write(f, Get(r.fields, f), r.clocks[f]);
    }
    forall v | v in before + OpWrites(op) && v.field == f
      ensures v.clock == w.clock || Less(v.clock, w.clock)
    {
      if v in before {
        assert v.field in r.clocks;
      } else {
        assert v.clock == op.ClockFor(f);
      }
    }
  }

  /** Folding upserts and updates over a live row gives, per field, the write with the greatest clock. */
  lemma {:induction false} FoldJoins(row: Row, ops: seq<RowOp>)
    requires !row.deleted && DeleteFree(ops)
    ensures Fold(Some(row), ops).Some?
    ensures Joins(row, AllWrites(ops), Fold(Some(row), ops).value)
  {
    if ops == [] {
      StrictTotalOrder();
      JoinsSelf(row);
    } else {
      var init, last := ops[..|ops| - 1], ops[|ops| - 1];
      FoldJoins(row, init);
      JoinsStep(row, AllWrites(init), Fold(Some(row), init).value, last);
    }
  }

  lemma JoinsSelf(row: Row)
    ensures Joins(row, {}, row)
  {
    assert RowWrites(row) + {} == RowWrites(row);
  }

  /** Order and multiplicity do not matter: op lists carrying the same writes end in the same row. */
  lemma {:induction false} Convergence(row: Row, ops: seq<RowOp>, ops2: seq<RowOp>)
    requires !row.deleted && DeleteFree(ops) && DeleteFree(ops2)
    requires AllWrites(ops) == AllWrites(ops2)
    requires Consistent(RowWrites(row) + AllWrites(ops))
    ensures Fold(Some(row), ops) == Fold(Some(row), ops2)
  {
    FoldJoins(row, ops);
    FoldJoins(row, ops2);
    JoinsUnique(row, AllWrites(ops), Fold(Some(row), ops).value, Fold(Some(row), ops2).value);
  }

  lemma {:induction false} AllWritesMembers(ops: seq<RowOp>)
    ensures forall w :: w in AllWrites(ops) <==> exists k :: 0 <= k < |ops| && w in OpWrites(ops[k])
  {
    if ops != [] {
      var init, last := ops[..|ops| - 1], ops[|ops| - 1];
      AllWritesMembers(init);
      forall w | w in AllWrites(ops)
        ensures exists k :: 0 <= k < |ops| && w in OpWrites(ops[k])
      {
        if w in AllWrites(init) {
          var k :| 0 <= k < |init| && w in OpWrites(init[k]);
          assert w in OpWrites(ops[k]);
        } else {
          assert w in OpWrites(ops[|ops| - 1]);
        }
      }
      forall w, k | 0 <= k < |ops| && w in OpWrites(ops[k])
        ensures w in AllWrites(ops)
      {
        if k < |init| {
          assert init[k] == ops[k];
        }
      }
    }
  }

  /** In particular any reordering, with any op delivered any number of times. */
  lemma {:induction false} AnyDeliveryOrder(row: Row, ops: seq<RowOp>, ops2: seq<RowOp>)
    requires !row.deleted && DeleteFree(ops)
    requires forall op :: op in ops <==> op in ops2
    requires Consistent(RowWrites(row) + AllWrites(ops))
    ensures Fold(Some(row), ops) == Fold(Some(row), ops2)
  {
    AllWritesMembers(ops);
    AllWritesMembers(ops2);
    forall w
      ensures w in AllWrites(ops) <==> w in AllWrites(ops2)
    {
      if w in AllWrites(ops) {
        var k :| 0 <= k < |ops| && w in OpWrites(ops[k]);
        assert ops[k] in ops2;
      }
      if w in AllWrites(ops2) {
        var k :| 0 <= k < |ops2| && w in OpWrites(ops2[k]);
        assert ops2[k] in ops;
      }
    }
    forall k | 0 <= k < |ops2|
      ensures !ops2[k].op.Delete?
    {
      assert ops2[k] in ops;
    }
    Convergence(row, ops, ops2);
  }

  // ── a row's current life ─────────────────────────────────────────────────

  ghost predicate Live(row: Option<Row>) {
    row.Some? && !row.value.deleted
  }

  /** `op` starts a row over: it creates a missing row, or is an upsert newer than the tombstone. */
  ghost predicate Revives(row: Option<Row>, op: RowOp) {
    !Live(row) && op.op.Upsert? && (row.Some? ==> Newer(op.hlc, row.value.delHlc))
  }

  /** A row that is not live becomes live exactly by a reviving upsert, whose fields are then the
      row: each non-null value it writes, each written field at the upsert's own clock for it, and
      nothing else. Only the key, the sequence number and the beaten tombstone clock remain. */
  lemma RevivalIs(row: Option<Row>, op: RowOp)
    requires !Live(row)
    ensures Live(ApplyOp(row, op)) <==> Revives(row, op)
    ensures Revives(row, op) ==>
      var r := ApplyOp(row, op).value;
      && r.key == (if row.Some? then row.value.key else op.key)
      && r.stamp == (if row.Some? then row.value.stamp else 0)
      && r.delHlc == (if row.Some? then row.value.delHlc else None)
      && (forall f :: f in r.fields <==> f in op.Writes() && op.Writes()[f] != Null)
      && (forall f :: f in r.fields ==> r.fields[f] == op.Writes()[f])
      && (forall f :: f in r.clocks <==> f in op.Writes())
      && (forall f :: f in r.clocks ==> r.clocks[f] == op.ClockFor(f))
  {
  }

  /** A delete leaves an empty tombstone at its own clock exactly when it is later than the
      tombstone clock and, on a live row, than the clock of every field; otherwise the row stays. */
  lemma DeleteIs(row: Option<Row>, op: RowOp)
    requires op.op.Delete?
    ensures row.None? ==> ApplyOp(row, op) == Some(Row(op.key, 0, true, Some(op.hlc), map[], map[]))
    ensures row.Some? ==>
      var r := row.value;
      var beats := (r.delHlc.Some? ==> Less(r.delHlc.value, op.hlc))
                   && (!r.deleted ==> forall f :: f in r.clocks ==> Less(r.clocks[f], op.hlc));
      ApplyOp(row, op) == Some(if beats then Row(r.key, r.stamp, true, Some(op.hlc), map[], map[]) else r)
  {
    if Live(row) {
      LaterThanAll(row.value, op.hlc);
    }
  }

  lemma {:induction false} LaterThanAll(r: Row, hlc: Clock)
    ensures Newer(hlc, MaxClock(r))
            <==> (r.delHlc.Some? ==> Less(r.delHlc.value, hlc)) && forall f :: f in r.clocks ==> Less(r.clocks[f], hlc)
  {
    StrictTotalOrder();
    var all := AllClocks(r);
    assert forall f :: f in r.clocks ==> r.clocks[f] in all;
    var newest := MaxClock(r);
    assert IsNewest(newest, all);
    if newest.Some? && newest.value in r.clocks.Values {
      var f :| f in r.clocks && r.clocks[f] == newest.value;
    }
  }

  /** The row a revival starts from, with nothing in it. */
  ghost function Reborn(row: Option<Row>, op: RowOp): Row {
    Row(if row.Some? then row.value.key else op.key, if row.Some? then row.value.stamp else 0, false,
        if row.Some? then row.value.delHlc else None, map[], map[])
  }

  /** What the ops write; a delete writes nothing. */
  ghost function LifeWrites(ops: seq<RowOp>): set<Write> {
    if ops == [] then {} else LifeWrites(ops[..|ops| - 1]) + Alive(ops[|ops| - 1])
  }

  ghost function Alive(op: RowOp): set<Write> {
    if op.op.Delete? then {} else OpWrites(op)
  }

  /** The row is live after every prefix of `ops`: no delete among them is accepted. */
  ghost predicate StaysLive(row: Option<Row>, ops: seq<RowOp>) {
    Live(row) && forall k :: 0 <= k <= |ops| ==> Live(Fold(row, ops[..k]))
  }

  lemma StaysLiveInit(row: Option<Row>, ops: seq<RowOp>)
    requires ops != [] && StaysLive(row, ops)
    ensures StaysLive(row, ops[..|ops| - 1])
  {
    var init := ops[..|ops| - 1];
    forall k | 0 <= k <= |init|
      ensures Live(Fold(row, init[..k]))
    {
      assert init[..k] == ops[..k];
    }
  }

  /** While no delete is accepted the row joins all that was written, deletes or not in between. */
  lemma {:induction false} LiveJoins(row: Row, ops: seq<RowOp>)
    requires StaysLive(Some(row), ops)
    ensures Live(Fold(Some(row), ops))
    ensures Joins(row, LifeWrites(ops), Fold(Some(row), ops).value)
  {
    assert ops[..|ops|] == ops;
    if ops == [] {
      JoinsSelf(row);
    } else {
      var init, last := ops[..|ops| - 1], ops[|ops| - 1];
      StaysLiveInit(Some(row), ops);
      LiveJoins(row, init);
      if !last.op.Delete? {
        JoinsStep(row, LifeWrites(init), Fold(Some(row), init).value, last);
      } else {
        assert LifeWrites(ops) == LifeWrites(init);
      }
    }
  }

  /** What happened before a revival is gone: from the reviving upsert on, the row is the join of
      what that upsert and the later ops wrote. */
  lemma {:induction false} RevivalJoins(row: Option<Row>, op: RowOp, ops: seq<RowOp>)
    requires Revives(row, op) && StaysLive(ApplyOp(row, op), ops)
    ensures Live(Fold(row, [op] + ops))
    ensures Joins(Reborn(row, op), OpWrites(op) + LifeWrites(ops), Fold(row, [op] + ops).value)
  {
    var base := Reborn(row, op);
    var born := ApplyOp(row, op);
    RevivalIs(row, op);
    ReviveAsMerge(row, op);
    FoldOne(row, op);
    FoldConcat(row, [op], ops);
    LiveJoins(born.value, ops);
    JoinsSelf(base);
    JoinsStep(base, {}, base, op);
    assert {} + OpWrites(op) == OpWrites(op);
    JoinsCompose(base, OpWrites(op), born.value, LifeWrites(ops), Fold(born, ops).value);
  }

  lemma {:induction false} FoldOne(row: Option<Row>, op: RowOp)
    ensures Fold(row, [op]) == ApplyOp(row, op)
  {
    assert [op][..0] == [];
  }

  lemma ReviveAsMerge(row: Option<Row>, op: RowOp)
    requires Revives(row, op)
    ensures ApplyOp(row, op) == Some(MergeFields(Reborn(row, op), op))
  {
  }

  /** Joining in two steps is joining at once. */
  lemma JoinsCompose(base: Row, us: set<Write>, mid: Row, vs: set<Write>, r: Row)
    requires Joins(base, us, mid) && Joins(mid, vs, r)
    ensures Joins(base, us + vs, r)
  {
    var all := RowWrites(base) + (us + vs);
    forall f | f in r.clocks
      ensures Newest(all, Write(f, Get(r.fields, f), r.clocks[f]))
    {
      NewestCompose(base, us, mid, vs, r, f);
    }
    forall w | w in all
      ensures w.field in r.clocks
    {
      JoinedCovers(base, us, mid, vs, r, w);
    }
    forall f | f !in r.clocks
      ensures Get(r.fields, f) == Get(base.fields, f)
    {
      ClocksStay(mid, vs, r, f);
    }
  }

  lemma ClocksStay(mid: Row, vs: set<Write>, r: Row, f: string)
    requires Joins(mid, vs, r)
    ensures f in mid.clocks ==> f in r.clocks
  {
    if f in mid.clocks {
      assert Write(f, Get(mid.fields, f), mid.clocks[f]) in RowWrites(mid) + vs;
    }
  }

  lemma JoinedCovers(base: Row, us: set<Write>, mid: Row, vs: set<Write>, r: Row, w: Write)
    requires Joins(base, us, mid) && Joins(mid, vs, r) && w in RowWrites(base) + us + vs
    ensures w.field in r.clocks
  {
    if w in vs {
      assert w in RowWrites(mid) + vs;
    } else {
      assert w in RowWrites(base) + us;
      ClocksStay(mid, vs, r, w.field);
    }
  }

  lemma NewestCompose(base: Row, us: set<Write>, mid: Row, vs: set<Write>, r: Row, f: string)
    requires Joins(base, us, mid) && Joins(mid, vs, r) && f in r.clocks
    ensures Newest(RowWrites(base) + (us + vs), Write(f, Get(r.fields, f), r.clocks[f]))
  {
    var w := Write(f, Get(r.fields, f), r.clocks[f]);
    assert Newest(RowWrites(mid) + vs, w);
    if w !in vs {
      assert w in RowWrites(mid);
      assert Newest(RowWrites(base) + us, w);
    }
    forall v | v in RowWrites(base) + (us + vs) && v.field == f
      ensures v.clock == w.clock || Less(v.clock, w.clock)
    {
      if v in vs {
        assert v in RowWrites(mid) + vs;
      } else {
        OlderThanBoth(base, us, mid, vs, w, v);
      }
    }
  }

  lemma OlderThanBoth(base: Row, us: set<Write>, mid: Row, vs: set<Write>, w: Write, v: Write)
    requires Joins(base, us, mid) && Newest(RowWrites(mid) + vs, w)
    requires v in RowWrites(base) + us && v.field == w.field
    ensures v.clock == w.clock || Less(v.clock, w.clock)
  {
    var f := w.field;
    var m := Write(f, Get(mid.fields, f), mid.clocks[f]);
    assert Newest(RowWrites(base) + us, m);
    assert m in RowWrites(mid) + vs;
    StrictTotalOrder();
  }

  /** Convergence from a revival on: whatever the row held before, if the same upsert revives
      it and the same writes follow, it ends the same. */
  lemma {:induction false} RevivalConverges(row: Option<Row>, op: RowOp, ops: seq<RowOp>, ops2: seq<RowOp>)
    requires Revives(row, op)
    requires StaysLive(ApplyOp(row, op), ops) && StaysLive(ApplyOp(row, op), ops2)
    requires LifeWrites(ops) == LifeWrites(ops2)
    requires Consistent(OpWrites(op) + LifeWrites(ops))
    ensures Fold(row, [op] + ops) == Fold(row, [op] + ops2)
  {
    RevivalJoins(row, op, ops);
    RevivalJoins(row, op, ops2);
    var ws := OpWrites(op) + LifeWrites(ops);
    NoWrites(Reborn(row, op), ws);
    JoinsUnique(Reborn(row, op), ws, Fold(row, [op] + ops).value, Fold(row, [op] + ops2).value);
  }

  lemma NoWrites(row: Row, ws: set<Write>)
    requires row.clocks == map[]
    ensures RowWrites(row) + ws == ws
  {
    assert RowWrites(row) == {};
  }

  /** The upsert at place `k` starts the row's current life. */
  ghost predicate BornAt(row: Option<Row>, ops: seq<RowOp>, k: nat) {
    k < |ops| && Revives(Fold(row, ops[..k]), ops[k]) && StaysLive(Fold(row, ops[..k + 1]), ops[k + 1..])
  }

  /** Every live row, after any ops at all, is the join of its current life's writes: of all ops if
      it never died, and otherwise of the ops from the last reviving upsert on. */
  lemma {:induction false} LifeIs(row: Option<Row>, ops: seq<RowOp>)
    requires Live(Fold(row, ops))
    ensures (StaysLive(row, ops) && Joins(row.value, LifeWrites(ops), Fold(row, ops).value))
            || exists k: nat :: BornAt(row, ops, k)
                 && Joins(Reborn(Fold(row, ops[..k]), ops[k]), LifeWrites(ops[k..]), Fold(row, ops).value)
  {
    LifeStarts(row, ops);
    if StaysLive(row, ops) {
      LiveJoins(row.value, ops);
    } else {
      var k: nat :| BornAt(row, ops, k);
      BornJoins(row, ops, k);
    }
  }

  lemma {:induction false} BornJoins(row: Option<Row>, ops: seq<RowOp>, k: nat)
    requires BornAt(row, ops, k)
    ensures Live(Fold(row, ops))
    ensures Joins(Reborn(Fold(row, ops[..k]), ops[k]), LifeWrites(ops[k..]), Fold(row, ops).value)
  {
    var before := Fold(row, ops[..k]);
    FoldAround(row, ops, k);
    RevivalJoins(before, ops[k], ops[k + 1..]);
    LifeWritesFirst(ops[k], ops[k + 1..]);
  }

  lemma {:induction false} FoldAround(row: Option<Row>, ops: seq<RowOp>, k: nat)
    requires k < |ops|
    ensures Fold(row, ops[..k + 1]) == ApplyOp(Fold(row, ops[..k]), ops[k])
    ensures ops[k..] == [ops[k]] + ops[k + 1..]
    ensures Fold(row, ops) == Fold(Fold(row, ops[..k]), [ops[k]] + ops[k + 1..])
  {
    assert ops[..k + 1] == ops[..k] + [ops[k]];
    FoldConcat(row, ops[..k], [ops[k]]);
    FoldOne(Fold(row, ops[..k]), ops[k]);
    assert ops == ops[..k] + ([ops[k]] + ops[k + 1..]);
    FoldConcat(row, ops[..k], [ops[k]] + ops[k + 1..]);
  }

  lemma {:induction false} LifeWritesFirst(op: RowOp, ops: seq<RowOp>)
    requires !op.op.Delete?
    ensures LifeWrites([op] + ops) == OpWrites(op) + LifeWrites(ops)
  {
    if ops == [] {
      assert [op] + ops == [] + [op];
      LifeWritesLast([], op);
    } else {
      var init, last := ops[..|ops| - 1], ops[|ops| - 1];
      assert ops == init + [last];
      assert [op] + ops == ([op] + init) + [last];
      LifeWritesLast([op] + init, last);
      LifeWritesLast(init, last);
      LifeWritesFirst(op, init);
      Associates(OpWrites(op), LifeWrites(init), Alive(last));
    }
  }

  lemma {:induction false} LifeWritesLast(ops: seq<RowOp>, last: RowOp)
    ensures LifeWrites(ops + [last]) == LifeWrites(ops) + Alive(last)
  {
    assert (ops + [last])[..|ops|] == ops;
  }

  lemma Associates(a: set<Write>, b: set<Write>, c: set<Write>)
    ensures (a + b) + c == a + (b + c)
  {
  }

  lemma {:induction false} LifeStarts(row: Option<Row>, ops: seq<RowOp>)
    requires Live(Fold(row, ops))
    ensures StaysLive(row, ops) || exists k: nat :: BornAt(row, ops, k)
  {
    if ops != [] {
      var n := |ops| - 1;
      var init, last := ops[..n], ops[n];
      assert ops[..n + 1] == ops && ops[n + 1..] == [];
      if Live(Fold(row, init)) {
        LifeStarts(row, init);
        if StaysLive(row, init) {
          StaysLiveLonger(row, ops);
        } else {
          var k: nat :| BornAt(row, init, k);
          BornLonger(row, ops, k);
        }
      } else {
        RevivalIs(Fold(row, init), last);
        StaysLiveNone(Fold(row, ops));
        assert BornAt(row, ops, n);
      }
    } else {
      StaysLiveNone(row);
    }
  }

  lemma StaysLiveNone(row: Option<Row>)
    requires Live(row)
    ensures StaysLive(row, [])
  {
    var none: seq<RowOp> := [];
    forall k | 0 <= k <= |none|
      ensures Live(Fold(row, none[..k]))
    {
      assert none[..k] == none;
    }
  }

  lemma {:induction false} StaysLiveLonger(row: Option<Row>, ops: seq<RowOp>)
    requires ops != [] && StaysLive(row, ops[..|ops| - 1]) && Live(Fold(row, ops))
    ensures StaysLive(row, ops)
  {
    var init := ops[..|ops| - 1];
    forall k | 0 <= k <= |ops|
      ensures Live(Fold(row, ops[..k]))
    {
      if k < |ops| {
        assert init[..k] == ops[..k];
      } else {
        assert ops[..k] == ops;
      }
    }
  }

  lemma {:induction false} BornLonger(row: Option<Row>, ops: seq<RowOp>, k: nat)
    requires ops != [] && BornAt(row, ops[..|ops| - 1], k) && Live(Fold(row, ops))
    ensures BornAt(row, ops, k)
  {
    var init := ops[..|ops| - 1];
    assert init[..k] == ops[..k] && init[..k + 1] == ops[..k + 1] && init[k] == ops[k];
    var later := ops[k + 1..];
    assert later[..|later| - 1] == init[k + 1..];
    assert ops == ops[..k + 1] + later;
    FoldConcat(row, ops[..k + 1], later);
    StaysLiveLonger(Fold(row, ops[..k + 1]), later);
  }

  /** A change is reported exactly when the row, with its clocks, is another one afterwards. */
  lemma ChangedExactly(row: Option<Row>, op: RowOp)
    ensures Changed(row, op) <==> ApplyOp(row, op) != row
  {
    StrictTotalOrder();
    if Live(row) && !op.op.Delete? {
      var r := row.value;
      if f :| f in op.Writes() && Wins(r, op, f) {
        assert Get(MergeFields(r, op).clocks, f) != Get(r.clocks, f);
      } else {
        forall f ensures SameAt(MergeFields(r, op), r, f) {
          MergeAt(r, op, f);
        }
        SameRow(MergeFields(r, op), r);
      }
    }
  }

  /** The live-row hypothesis is needed: an update that overtakes the create is lost. */
  lemma UpdateBeforeCreateIsLost(key: Key)
    ensures var create := RowOp(key, Upsert, Some(map["a" := Str("x")]), "1", None);
      var update := RowOp(key, Update, Some(map["b" := Str("y")]), "2", None);
      Fold(None, [create, update]) != Fold(None, [update, create])
  {
    var create := RowOp(key, Upsert, Some(map["a" := Str("x")]), "1", None);
    var update := RowOp(key, Update, Some(map["b" := Str("y")]), "2", None);
    FoldPair(None, create, update);
    FoldPair(None, update, create);
    assert "b" in Fold(None, [create, update]).value.fields;
    assert "b" !in Fold(None, [update, create]).value.fields;
  }

  /** So is the absence of deletes: a delete and a later write of the row do not commute. */
  lemma {:induction false} DeleteDoesNotCommute(row: Row)
    requires !row.deleted && row.delHlc.None? && row.clocks == map["a" := "1"] && row.fields == map["a" := Str("x")]
    ensures var drop := RowOp(row.key, Delete, None, "2", None);
      var update := RowOp(row.key, Update, Some(map["a" := Str("y")]), "3", None);
      Fold(Some(row), [drop, update]) != Fold(Some(row), [update, drop])
  {
    var drop := RowOp(row.key, Delete, None, "2", None);
    var update := RowOp(row.key, Update, Some(map["a" := Str("y")]), "3", None);
    FoldPair(Some(row), drop, update);
    FoldPair(Some(row), update, drop);
    assert row.clocks.Values == {"1"} by {
      assert row.clocks["a"] == "1";
    }
    assert AllClocks(row) == {"1"};
    assert Less("1", "2");
    assert DeleteBeats(row, "2");
    var written := MergeFields(row, update);
    assert Wins(row, update, "a");
    assert "3" in AllClocks(written);
    StrictTotalOrder();
    assert Less("2", "3");
    assert !DeleteBeats(written, "2");
  }
}
