/**
 `sendUpdates` in edge/src/session-room.ts: small updates first, packed into frames, then each large
 update as a header and its fragments; and what a receiver with the room's rules makes of it.
 */
module SendUpdates {
  import opened Common
  import opened Fragments

  function Small(updates: seq<Bytes>): seq<Bytes> {
    if updates == [] then []
    else
      var u := updates[|updates| - 1];
      Small(updates[..|updates| - 1]) + if |u| > FRAGMENT_BYTES then [] else [u]
  }

  function Large(updates: seq<Bytes>): seq<Bytes> {
    if updates == [] then []
    else
      var u := updates[|updates| - 1];
      Large(updates[..|updates| - 1]) + if |u| > FRAGMENT_BYTES then [u] else []
  }

  /** Small and large updates together are all updates, each as often as it was given. */
  lemma {:induction false} NothingLost(updates: seq<Bytes>)
    ensures multiset(Small(updates) + Large(updates)) == multiset(updates)
  {
    if updates != [] {
      var init, u := updates[..|updates| - 1], updates[|updates| - 1];
      NothingLost(init);
      assert updates == init + [u];
      if |u| > FRAGMENT_BYTES {
        assert Small(updates) == Small(init);
      } else {
        assert Large(updates) == Large(init);
      }
    }
  }

  function Total(updates: seq<Bytes>): nat {
    if updates == [] then 0 else Total(updates[..|updates| - 1]) + |updates[|updates| - 1]|
  }

  /** The updates a list of plain update frames carries. */
  function Carried(frames: seq<Frame>): seq<Bytes> {
    if frames == [] then []
    else
      var last := frames[|frames| - 1];
      Carried(frames[..|frames| - 1]) + if last.DocUpdate? then last.updates else []
  }

  ghost predicate SmallFrame(f: Frame) {
    f.DocUpdate? && f.updates != [] && Total(f.updates) <= FRAGMENT_BYTES
  }

  /** A frame was sent off only because the next update no longer fitted. */
  ghost predicate Tight(f: Frame, next: seq<Bytes>) {
    f.DocUpdate? && next != [] && Total(f.updates) + |next[0]| > FRAGMENT_BYTES
  }

  ghost predicate TightAt(frames: seq<Frame>, k: nat)
    requires k + 1 < |frames|
  {
    frames[k + 1].DocUpdate? && Tight(frames[k], frames[k + 1].updates)
  }

  ghost predicate SmallFrames(frames: seq<Frame>) {
    && (forall k :: 0 <= k < |frames| ==> SmallFrame(frames[k]))
    && (forall k: nat :: k + 1 < |frames| ==> TightAt(frames, k))
  }

  function FragmentsUpTo(id: BatchId, update: Bytes, n: nat): seq<Frame>
    requires n <= Count(update)
  {
    if n == 0 then [] else FragmentsUpTo(id, update, n - 1) + [Fragment(id, n - 1, Slice(update, n - 1))]
  }

  function LargeFrames(id: BatchId, update: Bytes): seq<Frame> {
    [Header(id, Count(update), |update|)] + FragmentsUpTo(id, update, Count(update))
  }

  /** The frames of several large updates; batch ids are drawn from `ids` in turn. */
  function AllLargeFrames(updates: seq<Bytes>, ids: nat -> BatchId, from: nat): seq<Frame> {
    if updates == [] then []
    else
      AllLargeFrames(updates[..|updates| - 1], ids, from)
      + LargeFrames(ids(from + |updates| - 1), updates[|updates| - 1])
  }

  // ── sending ──────────────────────────────────────────────────────────────

  lemma {:induction false} TotalPush(batch: seq<Bytes>, u: Bytes)
    ensures Total(batch + [u]) == Total(batch) + |u|
  {
    assert (batch + [u])[..|batch|] == batch;
  }

  lemma {:induction false} CarriedPush(frames: seq<Frame>, id: BatchId, updates: seq<Bytes>)
    ensures Carried(frames + [DocUpdate(id, updates)]) == Carried(frames) + updates
  {
    assert (frames + [DocUpdate(id, updates)])[..|frames|] == frames;
  }

  /** The state of the packing loop: frames sent, and the batch still open. */
  ghost predicate Packing(updates: seq<Bytes>, frames: seq<Frame>, batch: seq<Bytes>, bytes: nat) {
    && SmallFrames(frames)
    && Carried(frames) + batch == Small(updates)
    && bytes == Total(batch) <= FRAGMENT_BYTES
    && (frames != [] && batch != [] ==> Tight(frames[|frames| - 1], batch))
  }

  lemma FlushKeeps(updates: seq<Bytes>, frames: seq<Frame>, batch: seq<Bytes>, bytes: nat, id: BatchId)
    requires Packing(updates, frames, batch, bytes) && batch != []
    ensures Packing(updates, frames + [DocUpdate(id, batch)], [], 0)
  {
    CarriedPush(frames, id, batch);
    var more := frames + [DocUpdate(id, batch)];
    assert Carried(more) + [] == Carried(frames) + batch;
    forall k: nat | k + 1 < |more| ensures TightAt(more, k) {
      if k + 1 < |frames| {
        assert TightAt(frames, k);
      }
    }
  }

  lemma AddKeeps(updates: seq<Bytes>, frames: seq<Frame>, batch: seq<Bytes>, bytes: nat, u: Bytes)
    requires Packing(updates, frames, batch, bytes)
    requires |u| <= FRAGMENT_BYTES && bytes + |u| <= FRAGMENT_BYTES
    requires frames != [] && batch == [] ==> Tight(frames[|frames| - 1], [u])
    ensures Packing(updates + [u], frames, batch + [u], bytes + |u|)
  {
    TotalPush(batch, u);
    assert (updates + [u])[..|updates|] == updates;
    assert Carried(frames) + (batch + [u]) == Carried(frames) + batch + [u];
  }

  lemma SkipKeeps(updates: seq<Bytes>, frames: seq<Frame>, batch: seq<Bytes>, bytes: nat, u: Bytes)
    requires Packing(updates, frames, batch, bytes) && |u| > FRAGMENT_BYTES
    ensures Packing(updates + [u], frames, batch, bytes)
  {
    assert (updates + [u])[..|updates|] == updates;
  }

  ghost predicate Named(frames: seq<Frame>, ids: nat -> BatchId) {
    forall k :: 0 <= k < |frames| ==> frames[k].id == ids(k)
  }

  ghost predicate Grown(frames: seq<Frame>, frames': seq<Frame>, id: BatchId) {
    frames' == frames || (|frames'| == |frames| + 1 && frames'[..|frames|] == frames && frames'[|frames|].id == id)
  }

  lemma GrownNamed(frames: seq<Frame>, frames': seq<Frame>, ids: nat -> BatchId)
    requires Named(frames, ids) && Grown(frames, frames', ids(|frames|))
    ensures Named(frames', ids)
  {
    forall k | 0 <= k < |frames'| ensures frames'[k].id == ids(k) {
      assert k < |frames| ==> frames'[k] == frames'[..|frames|][k];
    }
  }

  method PackOne(ghost updates: seq<Bytes>, frames: seq<Frame>, batch: seq<Bytes>, bytes: nat, u: Bytes, id: BatchId)
      returns (frames': seq<Frame>, batch': seq<Bytes>, bytes': nat)
    requires Packing(updates, frames, batch, bytes) && (frames != [] ==> batch != [])
    ensures Packing(updates + [u], frames', batch', bytes') && (frames' != [] ==> batch' != [])
    ensures Grown(frames, frames', id)
  {
    frames', batch', bytes' := frames, batch, bytes;
    if |u| > FRAGMENT_BYTES {
      SkipKeeps(updates, frames, batch, bytes, u);
      return;
    }
    if bytes + |u| > FRAGMENT_BYTES && batch != [] {
      FlushThenAdd(updates, frames, batch, bytes, id, u);
      frames', batch', bytes' := frames + [DocUpdate(id, batch)], [u], |u|;
    } else {
      AddKeeps(updates, frames, batch, bytes, u);
      batch', bytes' := batch + [u], bytes + |u|;
    }
  }

  lemma FlushThenAdd(updates: seq<Bytes>, frames: seq<Frame>, batch: seq<Bytes>, bytes: nat, id: BatchId, u: Bytes)
    requires Packing(updates, frames, batch, bytes) && batch != []
    requires |u| <= FRAGMENT_BYTES && bytes + |u| > FRAGMENT_BYTES
    ensures Packing(updates + [u], frames + [DocUpdate(id, batch)], [u], |u|)
  {
    FlushKeeps(updates, frames, batch, bytes, id);
    AddKeeps(updates, frames + [DocUpdate(id, batch)], [], 0, u);
    assert [] + [u] == [u];
  }

  method PackLast(ghost updates: seq<Bytes>, frames: seq<Frame>, batch: seq<Bytes>, ghost bytes: nat, id: BatchId)
      returns (frames': seq<Frame>)
    requires Packing(updates, frames, batch, bytes)
    ensures SmallFrames(frames') && Carried(frames') == Small(updates)
    ensures Grown(frames, frames', id)
  {
    if batch == [] {
      return frames;
    }
    FlushKeeps(updates, frames, batch, bytes, id);
    frames' := frames + [DocUpdate(id, batch)];
  }

  /** The first loop and the last flush. */
  method PackSmall(updates: seq<Bytes>, ids: nat -> BatchId) returns (frames: seq<Frame>)
    ensures SmallFrames(frames) && Carried(frames) == Small(updates) && Named(frames, ids)
  {
    frames := [];
    var batch: seq<Bytes>, batchBytes: nat := [], 0;
    for i := 0 to |updates|
      invariant Packing(updates[..i], frames, batch, batchBytes) && (frames != [] ==> batch != [])
      invariant Named(frames, ids)
    {
      assert updates[..i + 1] == updates[..i] + [updates[i]];
      ghost var was := frames;
      frames, batch, batchBytes := PackOne(updates[..i], frames, batch, batchBytes, updates[i], ids(|frames|));
      GrownNamed(was, frames, ids);
    }
    assert updates[..|updates|] == updates;
    ghost var was := frames;
    frames := PackLast(updates, frames, batch, batchBytes, ids(|frames|));
    GrownNamed(was, frames, ids);
  }

  method FragmentLarge(id: BatchId, update: Bytes) returns (frames: seq<Frame>)
    ensures frames == LargeFrames(id, update)
  {
    var fragmentCount := Count(update);
    var header := [Header(id, fragmentCount, |update|)];
    frames := header;
    for i := 0 to fragmentCount
      invariant frames == header + FragmentsUpTo(id, update, i)
    {
      var end := if (i + 1) * FRAGMENT_BYTES <= |update| then (i + 1) * FRAGMENT_BYTES else |update|;
      frames := frames + [Fragment(id, i, update[i * FRAGMENT_BYTES..end])];
    }
  }

  lemma {:induction false} LargePush(large: seq<Bytes>, u: Bytes, ids: nat -> BatchId, from: nat)
    ensures AllLargeFrames(large + [u], ids, from)
         == AllLargeFrames(large, ids, from) + LargeFrames(ids(from + |large|), u)
  {
    assert (large + [u])[..|large|] == large;
  }

  /** The second loop. */
  method SendLarge(updates: seq<Bytes>, ids: nat -> BatchId, from: nat) returns (frames: seq<Frame>)
    ensures frames == AllLargeFrames(Large(updates), ids, from)
  {
    frames := [];
    var drawn := from;
    for i := 0 to |updates|
      invariant drawn == from + |Large(updates[..i])|
      invariant frames == AllLargeFrames(Large(updates[..i]), ids, from)
    {
      var u := updates[i];
      assert updates[..i + 1][..i] == updates[..i];
      if |u| <= FRAGMENT_BYTES {
        assert Large(updates[..i + 1]) == Large(updates[..i]);
        continue;
      }
      LargePush(Large(updates[..i]), u, ids, from);
      var more := FragmentLarge(ids(drawn), u);
      frames, drawn := frames + more, drawn + 1;
    }
    assert updates[..|updates|] == updates;
  }

  /** `sends(k)` tells whether the socket took the `k`-th frame; a refusal does not stop the rest. */
  method AllTaken(frames: seq<Frame>, sends: nat -> bool) returns (ok: bool)
    ensures ok <==> forall k :: 0 <= k < |frames| ==> sends(k)
  {
    ok := true;
    for k := 0 to |frames|
      invariant ok <==> forall j :: 0 <= j < k ==> sends(j)
    {
      ok := sends(k) && ok;
    }
  }

  /** `small` frames carry the small updates in order and the rest carries each large update once. */
  method Send(updates: seq<Bytes>, ids: nat -> BatchId, sends: nat -> bool)
      returns (frames: seq<Frame>, small: nat, ok: bool)
    ensures small <= |frames| && SmallFrames(frames[..small]) && Carried(frames[..small]) == Small(updates)
    ensures frames[small..] == AllLargeFrames(Large(updates), ids, small)
    ensures ok <==> forall k :: 0 <= k < |frames| ==> sends(k)
  {
    var packed := PackSmall(updates, ids);
    var rest := SendLarge(updates, ids, |packed|);
    frames, small := packed + rest, |packed|;
    assert frames[..small] == packed && frames[small..] == rest;
    ok := AllTaken(frames, sends);
  }

  // ── sizes ────────────────────────────────────────────────────────────────

  function Payload(f: Frame): nat {
    match f
    case DocUpdate(_, updates) => Total(updates)
    case Header(_, _, _) => 0
    case Fragment(_, _, bytes) => |bytes|
  }

  ghost predicate Bounded(frames: seq<Frame>) {
    forall k :: 0 <= k < |frames| ==> Payload(frames[k]) <= FRAGMENT_BYTES
  }

  lemma {:induction false} FragmentsBounded(id: BatchId, update: Bytes, n: nat)
    requires n <= Count(update)
    ensures Bounded(FragmentsUpTo(id, update, n))
  {
    if n > 0 {
      FragmentsBounded(id, update, n - 1);
    }
  }

  lemma {:induction false} LargeBounded(updates: seq<Bytes>, ids: nat -> BatchId, from: nat)
    ensures Bounded(AllLargeFrames(updates, ids, from))
  {
    if updates != [] {
      LargeBounded(updates[..|updates| - 1], ids, from);
      var u := updates[|updates| - 1];
      FragmentsBounded(ids(from + |updates| - 1), u, Count(u));
    }
  }

  // ── receiving ────────────────────────────────────────────────────────────

  /** The frames as they arrive from a joined sender in good standing. */
  function Arriving(frames: seq<Frame>): (ms: seq<Message>)
    ensures |ms| == |frames|
    ensures forall k :: 0 <= k < |ms| ==> ms[k] == Message(frames[k], Gate(true, false))
  {
    seq(|frames|, k requires 0 <= k < |frames| => Message(frames[k], Gate(true, false)))
  }

  lemma {:induction false} ReceivedConcat(batches: Batches, a: seq<Message>, b: seq<Message>)
    ensures Received(batches, a + b) == Received(batches, a) + Received(Left(batches, a), b)
    ensures Left(batches, a + b) == Left(Left(batches, a), b)
    decreases |a|
  {
    if a == [] {
      assert a + b == b;
    } else {
      assert (a + b)[1..] == a[1..] + b;
      ReceivedConcat(Step(batches, a[0]).0, a[1..], b);
    }
  }

  lemma {:induction false} SmallWithinMessage(updates: seq<Bytes>, i: nat)
    requires i < |updates|
    ensures |updates[i]| <= Total(updates)
  {
    if i < |updates| - 1 {
      SmallWithinMessage(updates[..|updates| - 1], i);
    }
  }

  lemma OneSmallReceived(f: Frame)
    requires SmallFrame(f)
    ensures Received(map[], Arriving([f])) == f.updates && Left(map[], Arriving([f])) == map[]
  {
    forall i | 0 <= i < |f.updates| ensures |f.updates[i]| <= MAX_MESSAGE_SIZE {
      SmallWithinMessage(f.updates, i);
    }
    StoreSame(map[], f.id);
    var ms := Arriving([f]);
    assert ms[1..] == [];
    assert Step(map[], ms[0]) == (map[], Deliver(f.updates));
  }

  lemma {:induction false} SmallReceived(frames: seq<Frame>)
    requires forall k :: 0 <= k < |frames| ==> SmallFrame(frames[k])
    ensures Received(map[], Arriving(frames)) == Carried(frames) && Left(map[], Arriving(frames)) == map[]
  {
    if frames != [] {
      var init, last := frames[..|frames| - 1], frames[|frames| - 1];
      SmallReceived(init);
      OneSmallReceived(last);
      assert Arriving(frames) == Arriving(init) + Arriving([last]);
      ReceivedConcat(map[], Arriving(init), Arriving([last]));
    }
  }

  /** Messages of one batch only meet that batch. */
  lemma {:induction false} SoleBatch(id: BatchId, batches: Batches, ms: seq<Message>)
    requires forall k :: 0 <= k < |ms| ==> ms[k].frame.id == id
    ensures Received(batches, ms) == ReceivedOne(Get(batches, id), ms)
    ensures Left(batches, ms) == Store(batches, id, LeftOne(Get(batches, id), ms))
    decreases |ms|
  {
    if ms == [] {
      StoreSame(batches, id);
    } else {
      var next := Step(batches, ms[0]).0;
      assert Get(next, id) == On(Get(batches, id), ms[0]).0;
      SoleBatch(id, next, ms[1..]);
      StoreTwice(batches, id, On(Get(batches, id), ms[0]).0, LeftOne(Get(next, id), ms[1..]));
    }
  }

  lemma StoreTwice(batches: Batches, id: BatchId, a: Option<Batch>, b: Option<Batch>)
    ensures Store(Store(batches, id, a), id, b) == Store(batches, id, b)
  {
  }

  lemma {:induction false} FragmentsAt(id: BatchId, update: Bytes, n: nat, i: nat)
    requires i < n <= Count(update)
    ensures |FragmentsUpTo(id, update, n)| == n
    ensures FragmentsUpTo(id, update, n)[i] == Fragment(id, i, Slice(update, i))
  {
    if n > 1 {
      FragmentsAt(id, update, n - 1, if i < n - 1 then i else 0);
    }
  }

  function Identity(n: nat): (r: seq<nat>)
    ensures |r| == n && forall k :: 0 <= k < n ==> r[k] == k
  {
    seq(n, k => k)
  }

  lemma LargeAsArrivals(id: BatchId, update: Bytes)
    requires update != []
    ensures var n := Count(update);
      var gates := seq(n, _ => Gate(true, false));
      Arriving(LargeFrames(id, update))
      == [Announce(id, update, Gate(true, false))] + Arrivals(id, update, Identity(n), gates)
  {
    var n := Count(update);
    forall i | 0 <= i < n
      ensures |FragmentsUpTo(id, update, n)| == n
      ensures FragmentsUpTo(id, update, n)[i] == Fragment(id, i, Slice(update, i))
    {
      FragmentsAt(id, update, n, i);
    }
    assert n > 0;
    FragmentsAt(id, update, n, 0);
  }

  /** A large update arrives whole, or is turned away at its header and leaves no trace. */
  lemma LargeReceived(id: BatchId, update: Bytes)
    requires update != []
    ensures Received(map[], Arriving(LargeFrames(id, update)))
         == if |update| <= MAX_REASSEMBLED_BYTES then [update] else []
    ensures Left(map[], Arriving(LargeFrames(id, update))) == map[]
  {
    var ms := Arriving(LargeFrames(id, update));
    var n := Count(update);
    var gates := seq(n, _ => Gate(true, false));
    LargeAsArrivals(id, update);
    SoleBatch(id, map[], ms);
    if |update| <= MAX_REASSEMBLED_BYTES {
      OneUpdateReassembles(id, update, Gate(true, false), Identity(n), gates, None);
    } else {
      UnannouncedDropped(ms[1..]);
    }
  }

  function Admitted(updates: seq<Bytes>): seq<Bytes> {
    if updates == [] then []
    else
      var u := updates[|updates| - 1];
      Admitted(updates[..|updates| - 1]) + if |u| <= MAX_REASSEMBLED_BYTES then [u] else []
  }

  lemma {:induction false} AllLargeReceived(updates: seq<Bytes>, ids: nat -> BatchId, from: nat)
    requires forall i :: 0 <= i < |updates| ==> updates[i] != []
    ensures Received(map[], Arriving(AllLargeFrames(updates, ids, from))) == Admitted(updates)
    ensures Left(map[], Arriving(AllLargeFrames(updates, ids, from))) == map[]
  {
    if updates != [] {
      var init, u := updates[..|updates| - 1], updates[|updates| - 1];
      var a, b := AllLargeFrames(init, ids, from), LargeFrames(ids(from + |updates| - 1), u);
      AllLargeReceived(init, ids, from);
      LargeReceived(ids(from + |updates| - 1), u);
      BothReceived(a, b);
    }
  }

  lemma BothReceived(a: seq<Frame>, b: seq<Frame>)
    requires Left(map[], Arriving(a)) == map[]
    ensures Received(map[], Arriving(a + b)) == Received(map[], Arriving(a)) + Received(map[], Arriving(b))
    ensures Left(map[], Arriving(a + b)) == Left(map[], Arriving(b))
  {
    ArrivingConcat(a, b);
    ReceivedConcat(map[], Arriving(a), Arriving(b));
  }

  lemma {:induction false} LargeNonempty(updates: seq<Bytes>, i: nat)
    requires i < |Large(updates)|
    ensures |Large(updates)[i]| > FRAGMENT_BYTES
  {
    if i < |Large(updates[..|updates| - 1])| {
      LargeNonempty(updates[..|updates| - 1], i);
    }
  }

  lemma {:induction false} LargeAllReceived(updates: seq<Bytes>, ids: nat -> BatchId, from: nat)
    ensures Received(map[], Arriving(AllLargeFrames(Large(updates), ids, from))) == Admitted(Large(updates))
  {
    forall i | 0 <= i < |Large(updates)| ensures Large(updates)[i] != [] {
      LargeNonempty(updates, i);
    }
    AllLargeReceived(Large(updates), ids, from);
  }

  lemma ArrivingConcat(a: seq<Frame>, b: seq<Frame>)
    ensures Arriving(a + b) == Arriving(a) + Arriving(b)
  {
  }

  /** Whatever is sent, a receiver with the room's rules gets the small updates in order and then the
      large ones in order, except those over its reassembly limit. */
  lemma {:induction false} SentIsReceived(updates: seq<Bytes>, ids: nat -> BatchId, frames: seq<Frame>, small: nat)
    requires small <= |frames| && SmallFrames(frames[..small]) && Carried(frames[..small]) == Small(updates)
    requires frames[small..] == AllLargeFrames(Large(updates), ids, small)
    ensures Received(map[], Arriving(frames)) == Small(updates) + Admitted(Large(updates))
  {
    var a, b := frames[..small], frames[small..];
    assert frames == a + b;
    ArrivingConcat(a, b);
    SmallReceived(a);
    LargeAllReceived(updates, ids, small);
    ReceivedConcat(map[], Arriving(a), Arriving(b));
  }

  /** No frame carries more than `FRAGMENT_BYTES` of payload. */
  lemma {:induction false} SentIsBounded(updates: seq<Bytes>, ids: nat -> BatchId, frames: seq<Frame>, small: nat)
    requires small <= |frames| && SmallFrames(frames[..small])
    requires frames[small..] == AllLargeFrames(Large(updates), ids, small)
    ensures Bounded(frames)
  {
    LargeBounded(Large(updates), ids, small);
    forall k | 0 <= k < |frames| ensures Payload(frames[k]) <= FRAGMENT_BYTES {
      if k < small {
        assert SmallFrame(frames[..small][k]);
      } else {
        assert frames[k] == frames[small..][k - small];
      }
    }
  }
}
