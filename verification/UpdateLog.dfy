/**
 The chunked update log (edge/src/update-log.ts): an update wider than `CHUNK_BYTES` is stored as
 consecutive rows, and the reader joins each opening row with the continuation rows after it.
 */
module UpdateLog {
  import opened Common

  const CHUNK_BYTES: nat := 1_500_000

  datatype Row = Row(bytes: Bytes, cont: bool)

  // ── writing ──────────────────────────────────────────────────────────────

  function ChunkEnd(update: Bytes, off: nat): (end: nat)
    requires off < |update|
    ensures off < end <= |update| && end - off <= CHUNK_BYTES
  {
    if off + CHUNK_BYTES <= |update| then off + CHUNK_BYTES else |update|
  }

  /** The rows that hold `update[off..]`. */
  function Chunks(update: Bytes, off: nat): seq<Row>
    requires off <= |update|
    decreases |update| - off
  {
    if off == |update| then []
    else
      var end := ChunkEnd(update, off);
      [Row(update[off..end], off != 0)] + Chunks(update, end)
  }

  // ── reading ──────────────────────────────────────────────────────────────

  /** Updates already closed, and the one being gathered. */
  datatype Reader = Reader(closed: seq<Bytes>, open: Option<Bytes>)

  function ReadRow(r: Reader, row: Row): Reader {
    match r.open
    case None => Reader(r.closed, Some(row.bytes))
    case Some(bytes) =>
      if row.cont then Reader(r.closed, Some(bytes + row.bytes)) else Reader(r.closed + [bytes], Some(row.bytes))
  }

  function ReadRows(r: Reader, rows: seq<Row>): Reader
    decreases |rows|
  {
    if rows == [] then r else ReadRows(ReadRow(r, rows[0]), rows[1..])
  }

  function Close(r: Reader): seq<Bytes> {
    match r.open
    case None => r.closed
    case Some(bytes) => r.closed + [bytes]
  }

  /** The logical updates a table of rows holds. */
  function Logical(rows: seq<Row>): seq<Bytes> {
    Close(ReadRows(Reader([], None), rows))
  }

  lemma {:induction false} ReadConcat(r: Reader, a: seq<Row>, b: seq<Row>)
    ensures ReadRows(r, a + b) == ReadRows(ReadRows(r, a), b)
    decreases |a|
  {
    if a == [] {
      assert a + b == b;
    } else {
      assert (a + b)[1..] == a[1..] + b;
      ReadConcat(ReadRow(r, a[0]), a[1..], b);
    }
  }

  /** Once a prefix of the update is open, the continuation rows complete it and touch nothing else. */
  lemma {:induction false} ReadContinuations(closed: seq<Bytes>, update: Bytes, off: nat)
    requires 0 < off <= |update|
    ensures ReadRows(Reader(closed, Some(update[..off])), Chunks(update, off)) == Reader(closed, Some(update))
    decreases |update| - off
  {
    if off == |update| {
      assert update[..off] == update;
    } else {
      var end := ChunkEnd(update, off);
      assert update[..off] + update[off..end] == update[..end];
      assert Chunks(update, off)[1..] == Chunks(update, end);
      ReadContinuations(closed, update, end);
    }
  }

  /** Whatever the table holds, appending one update adds exactly that update, or nothing if empty. */
  lemma {:induction false} AppendReads(rows: seq<Row>, update: Bytes)
    ensures Logical(rows + Chunks(update, 0)) == Logical(rows) + if update == [] then [] else [update]
  {
    var r := ReadRows(Reader([], None), rows);
    ReadConcat(Reader([], None), rows, Chunks(update, 0));
    if update != [] {
      var end := ChunkEnd(update, 0);
      assert Chunks(update, 0)[1..] == Chunks(update, end);
      assert update[0..end] == update[..end];
      ReadContinuations(Close(r), update, end);
    }
  }

  ghost predicate RowsOk(rows: seq<Row>) {
    forall i :: 0 <= i < |rows| ==> 0 < |rows[i].bytes| <= CHUNK_BYTES
  }

  lemma {:induction false} ChunksOk(update: Bytes, off: nat)
    requires off <= |update|
    ensures RowsOk(Chunks(update, off))
    decreases |update| - off
  {
    if off < |update| {
      ChunksOk(update, ChunkEnd(update, off));
    }
  }

  // ── the table ────────────────────────────────────────────────────────────

  function NonEmpty(updates: seq<Bytes>): seq<Bytes> {
    if updates == [] then []
    else
      var rest, last := NonEmpty(updates[..|updates| - 1]), updates[|updates| - 1];
      if last == [] then rest else rest + [last]
  }

  function TableAfter(updates: seq<Bytes>): seq<Row> {
    if updates == [] then [] else TableAfter(updates[..|updates| - 1]) + Chunks(updates[|updates| - 1], 0)
  }

  /** After any sequence of appends, reading yields the nonempty updates in order, and no row is empty
      or over the row cap. */
  lemma {:induction false} LogRoundTrip(updates: seq<Bytes>)
    ensures Logical(TableAfter(updates)) == NonEmpty(updates)
    ensures RowsOk(TableAfter(updates))
  {
    if updates != [] {
      var init, last := updates[..|updates| - 1], updates[|updates| - 1];
      LogRoundTrip(init);
      AppendReads(TableAfter(init), last);
      ChunksOk(last, 0);
    }
  }

  class UpdateTable {
    var rows: seq<Row>

    constructor ()
      ensures rows == []
    {
      rows := [];
    }

    method AppendUpdateRow(update: Bytes)
      modifies this
      ensures rows == old(rows) + Chunks(update, 0)
      ensures Logical(rows) == old(Logical(rows)) + if update == [] then [] else [update]
      ensures RowsOk(rows[|old(rows)|..])
    {
      var off := 0;
      while off < |update|
        invariant off <= |update|
        invariant rows + Chunks(update, off) == old(rows) + Chunks(update, 0)
      {
        var end := if off + CHUNK_BYTES <= |update| then off + CHUNK_BYTES else |update|;
        ghost var was, row := rows, Row(update[off..end], off != 0);
        rows := rows + [Row(update[off..end], off != 0)];
        assert was + ([row] + Chunks(update, end)) == was + [row] + Chunks(update, end);
        off := end;
      }
      AppendReads(old(rows), update);
      ChunksOk(update, 0);
      assert rows == old(rows) + Chunks(update, 0);
      assert rows[|old(rows)|..] == Chunks(update, 0);
    }

    method ReadUpdateRows() returns (updates: seq<Bytes>)
      ensures updates == Logical(rows)
    {
      updates := [];
      var parts: seq<Bytes> := [];
      ghost var reader := Reader([], None);
      for i := 0 to |rows|
        invariant reader == Reader(updates, if parts == [] then None else Some(Join(parts)))
        invariant ReadRows(reader, rows[i..]) == ReadRows(Reader([], None), rows)
      {
        var row := rows[i];
        reader := ReadRow(reader, row);
        assert rows[i..][0] == row && rows[i..][1..] == rows[i + 1..];
        if !row.cont && |parts| > 0 {
          updates := updates + [Join(parts)];
          parts := [];
        }
        JoinPush(parts, row.bytes);
        assert Join([]) + row.bytes == row.bytes;
        parts := parts + [row.bytes];
      }
      if |parts| > 0 {
        updates := updates + [Join(parts)];
      }
    }
  }

  function Join(parts: seq<Bytes>): Bytes {
    if parts == [] then [] else Join(parts[..|parts| - 1]) + parts[|parts| - 1]
  }

  lemma {:induction false} JoinPush(parts: seq<Bytes>, more: Bytes)
    ensures Join(parts + [more]) == Join(parts) + more
  {
    assert (parts + [more])[..|parts|] == parts;
  }
}
