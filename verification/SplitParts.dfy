/**
 Splitting an oversized message into entries (crates/doc/src/parts.rs): parts are packed into chunks
 of at most `MSG_INLINE_MAX` bytes, and an oversized text is itself cut at character boundaries.
 Texts are their UTF-8 bytes here; any other part is opaque with its serialized length.
 */
module SplitParts {
  import opened Common
  import opened Digits
  import opened Utf8

  const MSG_INLINE_MAX: nat := 256 * 1024

  datatype Part =
    | Text(id: string, text: Bytes)
    | Commentary(id: string, text: Bytes)
    | Other(body: string, len: nat)
  {
    predicate Textual() {
      Text? || Commentary?
    }

    function ByteLen(): nat {
      if Textual() then |text| else len
    }

    predicate Oversized() {
      Textual() && |text| > MSG_INLINE_MAX
    }
  }

  /** What Rust's `String` guarantees of every text. */
  ghost predicate TextsOk(parts: seq<Part>) {
    forall i :: 0 <= i < |parts| && parts[i].Textual() ==> WellFormed(parts[i].text)
  }

  // ── cutting one text ─────────────────────────────────────────────────────

  function Reach(text: Bytes, start: nat): nat {
    if start + MSG_INLINE_MAX <= |text| then start + MSG_INLINE_MAX else |text|
  }

  /** The last boundary at or below `end`. */
  function BackUp(text: Bytes, end: nat): (r: nat)
    requires end <= |text|
    ensures r <= end && Boundary(text, r)
    ensures forall j :: r < j <= end ==> !Boundary(text, j)
  {
    if Boundary(text, end) then end else BackUp(text, end - 1)
  }

  /** Where the piece from `start` ends, with the guard against standing still. */
  function CutEnd(text: Bytes, start: nat): (end: nat)
    requires start < |text|
    ensures start < end <= |text|
  {
    var end := BackUp(text, Reach(text, start));
    if end <= start then |text| else end
  }

  function Piece(p: Part, k: nat, text: Bytes): Part
    requires p.Textual()
  {
    var id := if k == 0 then p.id else p.id + "~" + Decimal(k);
    if p.Text? then Text(id, text) else Commentary(id, text)
  }

  function PiecesFrom(p: Part, start: nat, k: nat): seq<Part>
    requires p.Textual() && start <= |p.text|
    decreases |p.text| - start
  {
    if start == |p.text| then []
    else
      var end := CutEnd(p.text, start);
      [Piece(p, k, p.text[start..end])] + PiecesFrom(p, end, k + 1)
  }

  function Pieces(p: Part): seq<Part> {
    if p.Oversized() then PiecesFrom(p, 0, 0) else [p]
  }

  function AllPieces(parts: seq<Part>): seq<Part> {
    if parts == [] then [] else AllPieces(parts[..|parts| - 1]) + Pieces(parts[|parts| - 1])
  }

  /** From a boundary of a well-formed text the guard is never taken: the cut lies on a boundary, at
      most three bytes short of the cap. */
  lemma {:induction false} GuardNeverTaken(text: Bytes, start: nat)
    requires WellFormed(text) && start < |text| && Boundary(text, start)
    ensures start < BackUp(text, Reach(text, start)) == CutEnd(text, start)
    ensures Boundary(text, CutEnd(text, start))
    ensures CutEnd(text, start) == |text| || CutEnd(text, start) + 3 >= start + MSG_INLINE_MAX
    ensures CutEnd(text, start) <= start + MSG_INLINE_MAX
  {
    var end := Reach(text, start);
    if end < |text| {
      BoundaryNear(text, end);
      assert Boundary(text, end) || Boundary(text, end - 1) || Boundary(text, end - 2) || Boundary(text, end - 3);
    }
  }

  /** The concatenated texts of text parts. */
  function JoinTexts(parts: seq<Part>): Bytes {
    if parts == [] then []
    else (if parts[0].Textual() then parts[0].text else []) + JoinTexts(parts[1..])
  }

  /** Piece number `k` of `p`: same kind, its own id, within the cap, and text on its own. */
  ghost predicate PieceOk(p: Part, k: nat, q: Part) {
    && p.Textual() && q.Textual() && p.Text? == q.Text?
    && q.id == (if k == 0 then p.id else p.id + "~" + Decimal(k))
    && 0 < |q.text| <= MSG_INLINE_MAX
    && WellFormed(q.text)
  }

  ghost predicate PiecesOk(p: Part, from: nat, pieces: seq<Part>) {
    forall i :: 0 <= i < |pieces| ==> PieceOk(p, from + i, pieces[i])
  }

  lemma FirstPiece(p: Part, start: nat, k: nat)
    requires p.Textual() && WellFormed(p.text) && start < |p.text| && Boundary(p.text, start)
    ensures var end := CutEnd(p.text, start);
      Boundary(p.text, end) && PieceOk(p, k, Piece(p, k, p.text[start..end]))
  {
    var text := p.text;
    var end := CutEnd(text, start);
    GuardNeverTaken(text, start);
    SplitsAtBoundary(text, end);
    var head := text[..end];
    assert Boundary(head, start);
    SplitsAtBoundary(head, start);
    assert head[start..] == text[start..end];
  }

  /** Cutting loses nothing. */
  lemma {:induction false} PiecesRestore(p: Part, start: nat, k: nat)
    requires p.Textual() && start <= |p.text|
    ensures JoinTexts(PiecesFrom(p, start, k)) == p.text[start..]
    decreases |p.text| - start
  {
    if start < |p.text| {
      var end := CutEnd(p.text, start);
      PiecesRestore(p, end, k + 1);
      PiecesJoin(p, start, k);
      SliceJoin(p.text, start, end);
    }
  }

  lemma PiecesJoin(p: Part, start: nat, k: nat)
    requires p.Textual() && start < |p.text|
    ensures var end := CutEnd(p.text, start);
      JoinTexts(PiecesFrom(p, start, k)) == p.text[start..end] + JoinTexts(PiecesFrom(p, end, k + 1))
  {
    var end := CutEnd(p.text, start);
    JoinCons(Piece(p, k, p.text[start..end]), PiecesFrom(p, end, k + 1));
  }

  lemma SliceJoin(text: Bytes, start: nat, end: nat)
    requires start <= end <= |text|
    ensures text[start..end] + text[end..] == text[start..]
  {
  }

  lemma {:induction false} JoinCons(first: Part, rest: seq<Part>)
    requires first.Textual()
    ensures JoinTexts([first] + rest) == first.text + JoinTexts(rest)
  {
    assert ([first] + rest)[1..] == rest;
  }

  /** Every piece is well-formed text within the cap. */
  lemma {:induction false} PiecesAreText(p: Part, start: nat, k: nat)
    requires p.Textual() && WellFormed(p.text) && start <= |p.text| && Boundary(p.text, start)
    ensures PiecesOk(p, k, PiecesFrom(p, start, k))
    decreases |p.text| - start
  {
    if start < |p.text| {
      var end := CutEnd(p.text, start);
      var first, rest := Piece(p, k, p.text[start..end]), PiecesFrom(p, end, k + 1);
      FirstPiece(p, start, k);
      PiecesAreText(p, end, k + 1);
      PiecesCons(p, k, first, rest);
    }
  }

  lemma {:induction false} OnePieceIsSmall(p: Part, pieces: seq<Part>)
    requires PiecesOk(p, 0, pieces) && |pieces| <= 1
    ensures |JoinTexts(pieces)| <= MSG_INLINE_MAX
  {
    if |pieces| == 1 {
      assert PieceOk(p, 0 + 0, pieces[0]);
      assert pieces[1..] == [];
    }
  }

  lemma PiecesCons(p: Part, k: nat, first: Part, rest: seq<Part>)
    requires PieceOk(p, k, first) && PiecesOk(p, k + 1, rest)
    ensures PiecesOk(p, k, [first] + rest)
  {
    forall i | 0 <= i < |[first] + rest| ensures PieceOk(p, k + i, ([first] + rest)[i]) {
      if i > 0 {
        var j := i - 1;
        assert ([first] + rest)[i] == rest[j] && k + i == k + 1 + j;
        assert PieceOk(p, k + 1 + j, rest[j]);
      }
    }
  }

  /** A part that is split comes back whole: in order, same kind, the exact text. */
  lemma SplitTextRestored(p: Part)
    requires p.Oversized() && WellFormed(p.text)
    ensures |Pieces(p)| > 1 && PiecesOk(p, 0, Pieces(p)) && JoinTexts(Pieces(p)) == p.text
  {
    PiecesRestore(p, 0, 0);
    PiecesAreText(p, 0, 0);
    assert p.text[0..] == p.text;
    if |Pieces(p)| <= 1 {
      OnePieceIsSmall(p, Pieces(p));
    }
  }

  // ── packing ──────────────────────────────────────────────────────────────

  function Size(chunk: seq<Part>): nat {
    if chunk == [] then 0 else Size(chunk[..|chunk| - 1]) + chunk[|chunk| - 1].ByteLen()
  }

  /** Concatenate the continuation entries' parts in list order. */
  function JoinContinuations(chunks: seq<seq<Part>>): seq<Part> {
    if chunks == [] then [] else JoinContinuations(chunks[..|chunks| - 1]) + chunks[|chunks| - 1]
  }

  /** Each part after the first still fitted when it was added, or nothing before it had any bytes. */
  ghost predicate Fits(chunk: seq<Part>) {
    forall k :: 0 < k < |chunk| ==> Size(chunk[..k]) == 0 || Size(chunk[..k]) + chunk[k].ByteLen() <= MSG_INLINE_MAX
  }

  /** The chunk after chunk `i` was opened because its first part no longer fitted. */
  ghost predicate OpenedAfter(chunks: seq<seq<Part>>, i: nat)
    requires i + 1 < |chunks|
  {
    chunks[i + 1] != [] && Size(chunks[i]) > 0 && Size(chunks[i]) + chunks[i + 1][0].ByteLen() > MSG_INLINE_MAX
  }

  ghost predicate Packed(chunks: seq<seq<Part>>) {
    && chunks != []
    && (forall i :: 0 <= i < |chunks| ==> Fits(chunks[i]))
    && (forall i: nat :: i + 1 < |chunks| ==> OpenedAfter(chunks, i))
  }

  lemma {:induction false} FitsMore(chunk: seq<Part>, part: Part)
    requires Fits(chunk) && (Size(chunk) == 0 || Size(chunk) + part.ByteLen() <= MSG_INLINE_MAX)
    ensures Fits(chunk + [part])
  {
    var more := chunk + [part];
    assert more[..|chunk|] == chunk;
    forall k | 0 < k < |more|
      ensures Size(more[..k]) == 0 || Size(more[..k]) + more[k].ByteLen() <= MSG_INLINE_MAX
    {
      if k < |chunk| {
        assert more[..k] == chunk[..k];
      }
    }
  }

  lemma {:induction false} JoinPush(chunks: seq<seq<Part>>, chunk: seq<Part>)
    ensures JoinContinuations(chunks + [chunk]) == JoinContinuations(chunks) + chunk
  {
    assert (chunks + [chunk])[..|chunks|] == chunks;
  }

  lemma SizeOne(part: Part)
    ensures Size([part]) == part.ByteLen()
  {
    assert [part][..0] == [] && Size([]) == 0;
  }

  lemma {:induction false} OpenKeepsPacked(chunks: seq<seq<Part>>, part: Part)
    requires Packed(chunks)
    requires var size := Size(chunks[|chunks| - 1]); size > 0 && size + part.ByteLen() > MSG_INLINE_MAX
    ensures Packed(chunks + [[part]])
    ensures JoinContinuations(chunks + [[part]]) == JoinContinuations(chunks) + [part]
  {
    JoinPush(chunks, [part]);
    var after := chunks + [[part]];
    forall i: nat | i + 1 < |after| ensures OpenedAfter(after, i) {
      assert i + 1 < |chunks| ==> OpenedAfter(chunks, i);
    }
    forall i | 0 <= i < |after| ensures Fits(after[i]) {
      assert i < |chunks| ==> Fits(chunks[i]);
    }
  }

  lemma {:induction false} ExtendKeepsPacked(init: seq<seq<Part>>, last: seq<Part>, part: Part)
    requires Packed(init + [last])
    requires Size(last) == 0 || Size(last) + part.ByteLen() <= MSG_INLINE_MAX
    ensures Packed(init + [last + [part]])
    ensures JoinContinuations(init + [last + [part]]) == JoinContinuations(init + [last]) + [part]
  {
    var before, after := init + [last], init + [last + [part]];
    assert Fits(before[|init|]);
    FitsMore(last, part);
    JoinPush(init, last);
    JoinPush(init, last + [part]);
    forall i: nat | i + 1 < |after| ensures OpenedAfter(after, i) {
      assert OpenedAfter(before, i);
    }
    forall i | 0 <= i < |after| ensures Fits(after[i]) {
      assert i < |init| ==> Fits(before[i]);
    }
  }

  method Push(chunks: seq<seq<Part>>, current: nat, part: Part) returns (chunks': seq<seq<Part>>, current': nat)
    requires Packed(chunks) && current == Size(chunks[|chunks| - 1])
    ensures Packed(chunks') && current' == Size(chunks'[|chunks'| - 1])
    ensures JoinContinuations(chunks') == JoinContinuations(chunks) + [part]
  {
    if current > 0 && current + part.ByteLen() > MSG_INLINE_MAX {
      OpenKeepsPacked(chunks, part);
      SizeOne(part);
      chunks', current' := chunks + [[part]], part.ByteLen();
    } else {
      var init, last := chunks[..|chunks| - 1], chunks[|chunks| - 1];
      assert chunks == init + [last];
      ExtendKeepsPacked(init, last, part);
      SizeMore(last, part);
      chunks', current' := init + [last + [part]], current + part.ByteLen();
    }
  }

  lemma {:induction false} SizeMore(chunk: seq<Part>, part: Part)
    ensures Size(chunk + [part]) == Size(chunk) + part.ByteLen()
  {
    assert (chunk + [part])[..|chunk|] == chunk;
  }

  lemma MovePiece(done: seq<Part>, p: Part, start: nat, k: nat, all: seq<Part>)
    requires p.Textual() && start < |p.text| && done + PiecesFrom(p, start, k) == all
    ensures var end := CutEnd(p.text, start);
      done + [Piece(p, k, p.text[start..end])] + PiecesFrom(p, end, k + 1) == all
  {
  }

  method PushPieces(chunks: seq<seq<Part>>, current: nat, p: Part) returns (chunks': seq<seq<Part>>, current': nat)
    requires p.Textual() && WellFormed(p.text)
    requires Packed(chunks) && current == Size(chunks[|chunks| - 1])
    ensures Packed(chunks') && current' == Size(chunks'[|chunks'| - 1])
    ensures JoinContinuations(chunks') == JoinContinuations(chunks) + PiecesFrom(p, 0, 0)
  {
    chunks', current' := chunks, current;
    ghost var all := JoinContinuations(chunks) + PiecesFrom(p, 0, 0);
    var start, piece := 0, 0;
    while start < |p.text|
      invariant Pushing(chunks', current', p, start, piece, all)
      decreases |p.text| - start
    {
      chunks', current', start := PushPiece(chunks', current', p, start, piece, all);
      piece := piece + 1;
    }
  }

  /** Everything before `start` is in the chunks, and what is left completes `all`. */
  ghost predicate Pushing(chunks: seq<seq<Part>>, current: nat, p: Part, start: nat, piece: nat, all: seq<Part>) {
    && p.Textual() && start <= |p.text| && Boundary(p.text, start)
    && Packed(chunks) && current == Size(chunks[|chunks| - 1])
    && JoinContinuations(chunks) + PiecesFrom(p, start, piece) == all
  }

  /** One turn of the loop over a text. */
  method PushPiece(chunks: seq<seq<Part>>, current: nat, p: Part, start: nat, piece: nat, ghost all: seq<Part>)
      returns (chunks': seq<seq<Part>>, current': nat, end: nat)
    requires Pushing(chunks, current, p, start, piece, all) && WellFormed(p.text) && start < |p.text|
    ensures Pushing(chunks', current', p, end, piece + 1, all) && end > start
  {
    GuardNeverTaken(p.text, start);
    end := FindCut(p.text, start);
    MovePiece(JoinContinuations(chunks), p, start, piece, all);
    chunks', current' := Push(chunks, current, Piece(p, piece, p.text[start..end]));
  }

  /** The inner loop and its guard. */
  method FindCut(text: Bytes, start: nat) returns (end: nat)
    requires start < |text|
    ensures end == CutEnd(text, start)
  {
    end := if start + MSG_INLINE_MAX <= |text| then start + MSG_INLINE_MAX else |text|;
    while end < |text| && !Boundary(text, end)
      invariant end <= |text| && BackUp(text, end) == BackUp(text, Reach(text, start))
      decreases end
    {
      end := end - 1;
    }
    if end <= start {
      end := |text|;
    }
  }

  lemma AllPiecesPush(parts: seq<Part>, i: nat)
    requires i < |parts|
    ensures AllPieces(parts[..i + 1]) == AllPieces(parts[..i]) + Pieces(parts[i])
  {
    assert parts[..i + 1][..i] == parts[..i];
  }

  /** One part of the message, cut up if it is a text over the cap. */
  method PushAll(chunks: seq<seq<Part>>, current: nat, p: Part) returns (chunks': seq<seq<Part>>, current': nat)
    requires p.Textual() ==> WellFormed(p.text)
    requires Packed(chunks) && current == Size(chunks[|chunks| - 1])
    ensures Packed(chunks') && current' == Size(chunks'[|chunks'| - 1])
    ensures JoinContinuations(chunks') == JoinContinuations(chunks) + Pieces(p)
  {
    if p.Oversized() {
      chunks', current' := PushPieces(chunks, current, p);
    } else {
      chunks', current' := Push(chunks, current, p);
    }
  }

  method Split(parts: seq<Part>) returns (chunks: seq<seq<Part>>)
    requires TextsOk(parts)
    ensures Packed(chunks)
    ensures JoinContinuations(chunks) == AllPieces(parts)
  {
    chunks := [[]];
    var current := 0;
    assert chunks[..0] == [] && JoinContinuations(chunks[..0]) == [];
    for i := 0 to |parts|
      invariant Packed(chunks) && current == Size(chunks[|chunks| - 1])
      invariant JoinContinuations(chunks) == AllPieces(parts[..i])
    {
      AllPiecesPush(parts, i);
      chunks, current := PushAll(chunks, current, parts[i]);
    }
    assert parts[..|parts|] == parts;
  }

  // ── the cap ──────────────────────────────────────────────────────────────

  lemma {:induction false} JoinConcat(a: seq<Part>, b: seq<Part>)
    ensures JoinTexts(a + b) == JoinTexts(a) + JoinTexts(b)
    decreases |a|
  {
    if a == [] {
      assert a + b == b;
    } else {
      assert (a + b)[1..] == a[1..] + b;
      JoinConcat(a[1..], b);
    }
  }

  /** Over all parts together no text is lost, repeated or moved. */
  lemma {:induction false} AllTextRestored(parts: seq<Part>)
    ensures JoinTexts(AllPieces(parts)) == JoinTexts(parts)
  {
    if parts != [] {
      var init, last := parts[..|parts| - 1], parts[|parts| - 1];
      AllTextRestored(init);
      assert parts == init + [last];
      JoinConcat(init, [last]);
      JoinConcat(AllPieces(init), Pieces(last));
      if last.Oversized() {
        PiecesRestore(last, 0, 0);
        JoinCons(last, []);
        assert last.text[0..] == last.text && last.text + JoinTexts([]) == last.text && [last] + [] == [last];
      }
    }
  }

  lemma {:induction false} PartWithinSize(chunk: seq<Part>, j: nat)
    requires j < |chunk|
    ensures chunk[j].ByteLen() <= Size(chunk)
  {
    if j < |chunk| - 1 {
      PartWithinSize(chunk[..|chunk| - 1], j);
    }
  }

  lemma {:induction false} FitsWithinCap(chunk: seq<Part>)
    requires Fits(chunk) && forall j :: 0 <= j < |chunk| ==> chunk[j].ByteLen() <= MSG_INLINE_MAX
    ensures Size(chunk) <= MSG_INLINE_MAX
  {
    if |chunk| > 1 {
      var k := |chunk| - 1;
      assert Size(chunk[..k]) == 0 || Size(chunk[..k]) + chunk[k].ByteLen() <= MSG_INLINE_MAX;
    } else if |chunk| == 1 {
      assert chunk[..0] == [];
      assert Size(chunk) == Size([]) + chunk[0].ByteLen();
    }
  }

  lemma {:induction false} InJoin(chunks: seq<seq<Part>>, p: Part)
    ensures p in JoinContinuations(chunks) <==> exists i :: 0 <= i < |chunks| && p in chunks[i]
  {
    if chunks != [] {
      var init := chunks[..|chunks| - 1];
      InJoin(init, p);
      if p in JoinContinuations(init) {
        var i :| 0 <= i < |init| && p in init[i];
        assert p in chunks[i];
      }
    }
  }

  lemma {:induction false} OthersKept(parts: seq<Part>, i: nat)
    requires i < |parts| && !parts[i].Oversized()
    ensures parts[i] in AllPieces(parts)
  {
    if i < |parts| - 1 {
      OthersKept(parts[..|parts| - 1], i);
    }
  }

  lemma {:induction false} PieceWithinCap(parts: seq<Part>, q: Part)
    requires TextsOk(parts) && q in AllPieces(parts)
    ensures q.ByteLen() <= MSG_INLINE_MAX || (q in parts && q.Other?)
  {
    var init, last := parts[..|parts| - 1], parts[|parts| - 1];
    if q in AllPieces(init) {
      PieceWithinCap(init, q);
    } else if last.Oversized() {
      SplitTextRestored(last);
      var k :| 0 <= k < |Pieces(last)| && Pieces(last)[k] == q;
      assert PieceOk(last, 0 + k, Pieces(last)[k]);
    }
  }

  lemma {:induction false} PieceSmallOrOther(parts: seq<Part>, q: Part)
    requires TextsOk(parts) && q in AllPieces(parts)
    requires forall i :: 0 <= i < |parts| && parts[i].Other? ==> parts[i].len <= MSG_INLINE_MAX
    ensures q.ByteLen() <= MSG_INLINE_MAX
  {
    PieceWithinCap(parts, q);
  }

  /** Every chunk is within the cap exactly when every part that cannot be cut is. */
  lemma {:induction false} ChunksWithinCap(parts: seq<Part>, chunks: seq<seq<Part>>)
    requires TextsOk(parts) && Packed(chunks) && JoinContinuations(chunks) == AllPieces(parts)
    ensures (forall i :: 0 <= i < |chunks| ==> Size(chunks[i]) <= MSG_INLINE_MAX) <==>
            (forall i :: 0 <= i < |parts| && parts[i].Other? ==> parts[i].len <= MSG_INLINE_MAX)
  {
    if forall i :: 0 <= i < |chunks| ==> Size(chunks[i]) <= MSG_INLINE_MAX {
      forall i | 0 <= i < |parts| && parts[i].Other? ensures parts[i].len <= MSG_INLINE_MAX {
        OthersKept(parts, i);
        InJoin(chunks, parts[i]);
        var c :| 0 <= c < |chunks| && parts[i] in chunks[c];
        var j :| 0 <= j < |chunks[c]| && chunks[c][j] == parts[i];
        PartWithinSize(chunks[c], j);
      }
    }
    if forall i :: 0 <= i < |parts| && parts[i].Other? ==> parts[i].len <= MSG_INLINE_MAX {
      forall i | 0 <= i < |chunks| ensures Size(chunks[i]) <= MSG_INLINE_MAX {
        forall j | 0 <= j < |chunks[i]| ensures chunks[i][j].ByteLen() <= MSG_INLINE_MAX {
          InJoin(chunks, chunks[i][j]);
          PieceSmallOrOther(parts, chunks[i][j]);
        }
        FitsWithinCap(chunks[i]);
      }
    }
  }
}
