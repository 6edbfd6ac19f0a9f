/** The rows an update is stored in, and the updates any rows hold (edge/src/update-log.ts), place by place. */
module UpdateRows {
  import opened Common
  import opened Picking
  import opened UpdateLog

  /** Row `i` holds the `i`-th stretch of 1 500 000 bytes, and only the first row opens an update. */
  ghost predicate StretchAt(update: Bytes, i: nat, row: Row) {
    && 1_500_000 * i < |update|
    && row.bytes == update[1_500_000 * i..if 1_500_000 * (i + 1) <= |update| then 1_500_000 * (i + 1) else |update|]
    && row.cont == (i != 0)
  }

  lemma {:induction false} ChunksFrom(update: Bytes, n: nat)
    requires 1_500_000 * n <= |update|
    ensures var rows := Chunks(update, 1_500_000 * n);
      && |rows| == (|update| - 1_500_000 * n + 1_499_999) / 1_500_000
      && forall i :: 0 <= i < |rows| ==> StretchAt(update, n + i, rows[i])
    decreases |update| - 1_500_000 * n
  {
    var off := 1_500_000 * n;
    if off < |update| {
      var end := ChunkEnd(update, off);
      var rows, rest := Chunks(update, off), Chunks(update, end);
      if end < |update| {
        ChunksFrom(update, n + 1);
      } else {
        assert rest == [];
      }
      forall i | 0 <= i < |rows| ensures StretchAt(update, n + i, rows[i]) {
        if i > 0 {
          assert rows[i] == rest[i - 1];
          assert StretchAt(update, n + 1 + (i - 1), rest[i - 1]);
        }
      }
    }
  }

  /** An update takes as few rows as possible, each but the last full. */
  lemma {:induction false} ChunksExactly(update: Bytes)
    ensures var rows := Chunks(update, 0);
      && |rows| == (|update| + 1_499_999) / 1_500_000
      && forall i :: 0 <= i < |rows| ==> StretchAt(update, i, rows[i])
  {
    ChunksFrom(update, 0);
  }

  // ── reading ──────────────────────────────────────────────────────────────

  ghost function Cat(rows: seq<Row>): Bytes {
    if rows == [] then [] else Cat(rows[..|rows| - 1]) + rows[|rows| - 1].bytes
  }

  /** Which rows open an update: the first, whatever it says, and those that continue nothing. */
  ghost function Openings(rows: seq<Row>): (marks: seq<bool>)
    ensures |marks| == |rows| && forall i :: 0 <= i < |rows| ==> marks[i] == (i == 0 || !rows[i].cont)
  {
    seq(|rows|, i requires 0 <= i < |rows| => i == 0 || !rows[i].cont)
  }

  ghost function Starts(rows: seq<Row>): (at: seq<nat>)
    ensures forall k :: 0 <= k < |at| ==> at[k] < |rows|
    ensures forall a, b :: 0 <= a < b < |at| ==> at[a] < at[b]
  {
    Marked(Openings(rows), |rows|)
  }

  ghost function Ends(rows: seq<Row>, k: nat): (end: nat)
    requires k < |Starts(rows)|
    ensures Starts(rows)[k] < end <= |rows|
  {
    if k + 1 < |Starts(rows)| then Starts(rows)[k + 1] else |rows|
  }

  ghost predicate HoldsAt(rows: seq<Row>, updates: seq<Bytes>, k: nat) {
    k < |updates| && k < |Starts(rows)| && updates[k] == Cat(rows[Starts(rows)[k]..Ends(rows, k)])
  }

  ghost predicate Holds(rows: seq<Row>, updates: seq<Bytes>) {
    |updates| == |Starts(rows)| && forall k: nat :: k < |updates| ==> HoldsAt(rows, updates, k)
  }

  lemma StartsPush(rows: seq<Row>, row: Row)
    ensures Starts(rows + [row]) == if rows == [] || !row.cont then Starts(rows) + [|rows|] else Starts(rows)
  {
    var mark := rows == [] || !row.cont;
    assert Openings(rows + [row]) == Openings(rows) + [mark];
    MarkedPush(Openings(rows), mark, |rows|);
  }

  lemma {:induction false} ReadSnoc(rows: seq<Row>, row: Row)
    ensures ReadRows(Reader([], None), rows + [row]) == ReadRow(ReadRows(Reader([], None), rows), row)
  {
    ReadConcat(Reader([], None), rows, [row]);
    assert [row][1..] == [];
  }

  lemma CatPush(rows: seq<Row>, from: nat, row: Row)
    requires from <= |rows|
    ensures Cat((rows + [row])[from..|rows| + 1]) == Cat(rows[from..|rows|]) + row.bytes
  {
    var all := (rows + [row])[from..|rows| + 1];
    assert all[..|all| - 1] == rows[from..|rows|];
  }

  /** A row that opens an update leaves the earlier ones as they are. */
  lemma OpeningKeeps(rows: seq<Row>, row: Row, updates: seq<Bytes>, k: nat)
    requires Holds(rows, updates) && (rows == [] || !row.cont) && k <= |updates|
    ensures HoldsAt(rows + [row], updates + [row.bytes], k)
  {
    StartsPush(rows, row);
    if k < |updates| {
      assert HoldsAt(rows, updates, k);
      var from, end := Starts(rows)[k], Ends(rows, k);
      assert (rows + [row])[from..end] == rows[from..end];
    } else {
      CatPush(rows, |rows|, row);
      assert rows[|rows|..|rows|] == [];
      assert [] + row.bytes == row.bytes;
    }
  }

  /** A continuation goes to the last update only. */
  lemma ContinuingKeeps(rows: seq<Row>, row: Row, updates: seq<Bytes>, k: nat)
    requires Holds(rows, updates) && rows != [] && row.cont && k < |updates|
    ensures HoldsAt(rows + [row], updates[|updates| - 1 := updates[|updates| - 1] + row.bytes], k)
  {
    StartsPush(rows, row);
    assert HoldsAt(rows, updates, k);
    var from, end := Starts(rows)[k], Ends(rows, k);
    if k < |updates| - 1 {
      assert (rows + [row])[from..end] == rows[from..end];
    } else {
      CatPush(rows, from, row);
    }
  }

  lemma ReadPush(r: Reader, row: Row)
    ensures Close(ReadRow(r, row)) ==
      if r.open.None? || !row.cont then Close(r) + [row.bytes]
      else Close(r)[|Close(r)| - 1 := Close(r)[|Close(r)| - 1] + row.bytes]
  {
  }

  lemma {:induction false} ReadHolds(rows: seq<Row>)
    ensures Holds(rows, Logical(rows))
    ensures ReadRows(Reader([], None), rows).open.Some? <==> rows != []
  {
    if rows != [] {
      var init, row := rows[..|rows| - 1], rows[|rows| - 1];
      assert rows == init + [row];
      ReadHolds(init);
      ReadSnoc(init, row);
      var r := ReadRows(Reader([], None), init);
      ReadPush(r, row);
      HoldsNext(init, row, Logical(init), Logical(rows));
    }
  }

  lemma HoldsNext(rows: seq<Row>, row: Row, updates: seq<Bytes>, next: seq<Bytes>)
    requires Holds(rows, updates) && (rows != [] ==> updates != [])
    requires next == if rows == [] || !row.cont then updates + [row.bytes]
                     else updates[|updates| - 1 := updates[|updates| - 1] + row.bytes]
    ensures Holds(rows + [row], next)
  {
    StartsPush(rows, row);
    forall k: nat | k < |next| ensures HoldsAt(rows + [row], next, k) {
      if rows == [] || !row.cont {
        OpeningKeeps(rows, row, updates, k);
      } else {
        ContinuingKeeps(rows, row, updates, k);
      }
    }
  }

  /** Whatever rows the table holds, reading gives one update per opening row, in order: its bytes and
      those of the continuations up to the next opening row. */
  lemma ReadsExactly(rows: seq<Row>)
    ensures |Logical(rows)| == |Starts(rows)|
    ensures forall k :: 0 <= k < |Logical(rows)| ==> Logical(rows)[k] == Cat(rows[Starts(rows)[k]..Ends(rows, k)])
  {
    ReadHolds(rows);
    forall k: nat | k < |Logical(rows)| ensures Logical(rows)[k] == Cat(rows[Starts(rows)[k]..Ends(rows, k)]) {
      assert HoldsAt(rows, Logical(rows), k);
    }
  }
}
