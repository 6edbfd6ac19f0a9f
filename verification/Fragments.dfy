/**
 Shipping updates over a socket (edge/src/session-room.ts): small updates ride together in one frame,
 a large one goes as a header and fragments, and the room puts fragments back together per batch.
 */
module Fragments {
  import opened Common

  type BatchId = string

  const FRAGMENT_BYTES: nat := 200_000
  const MAX_MESSAGE_SIZE: nat := 256 * 1024
  const MAX_REASSEMBLED_BYTES: nat := 32 * 1024 * 1024
  const MAX_FRAGMENT_COUNT: nat := 4096
  const PENALTY_PROBE_MAX_BYTES: nat := 4096

  datatype Frame =
    | DocUpdate(id: BatchId, updates: seq<Bytes>)
    | Header(id: BatchId, count: nat, total: nat)
    | Fragment(id: BatchId, index: nat, bytes: Bytes)

  /** What the room knows of the sender when a frame arrives. */
  datatype Gate = Gate(joined: bool, penalized: bool)

  datatype Message = Message(frame: Frame, gate: Gate)

  /** A batch being gathered. A slot nobody ever filled in a grown list is a hole. */
  datatype Batch = Batch(parts: seq<Option<Bytes>>, received: nat, total: nat)

  datatype Outcome =
    | PermissionDenied
    | PayloadTooLarge
    | InvalidUpdate
    | FragmentTimeout
    | Ignored
    | Waiting
    | Throws
    | Deliver(updates: seq<Bytes>)

  // ── receiving one batch ──────────────────────────────────────────────────

  function Blank(n: nat): seq<Option<Bytes>> {
    seq(n, _ => Some([]))
  }

  /** Assigning past the end of the list grows it. */
  function Put(parts: seq<Option<Bytes>>, index: nat, bytes: Bytes): seq<Option<Bytes>> {
    if index < |parts| then parts[index := Some(bytes)]
    else parts + seq(index - |parts|, _ => None) + [Some(bytes)]
  }

  /** The parts end to end; a hole has no bytes to copy. */
  function Joined(parts: seq<Option<Bytes>>): Option<Bytes> {
    if parts == [] then Some([])
    else
      var init, last := Joined(parts[..|parts| - 1]), parts[|parts| - 1];
      if init.None? || last.None? then None else Some(init.value + last.value)
  }

  function Zeros(n: nat): Bytes {
    seq(n, _ => 0)
  }

  /** A buffer of the announced size with the parts copied in; copying past its end throws. */
  function Assembled(parts: seq<Option<Bytes>>, total: nat): Option<Bytes> {
    var joined := Joined(parts);
    if joined.None? || |joined.value| > total then None
    else Some(joined.value + Zeros(total - |joined.value|))
  }

  predicate TooLarge(f: Frame) {
    match f
    case DocUpdate(_, updates) => exists i :: 0 <= i < |updates| && |updates[i]| > MAX_MESSAGE_SIZE
    case Header(_, count, total) => total > MAX_REASSEMBLED_BYTES || count > MAX_FRAGMENT_COUNT
    case Fragment(_, _, _) => false
  }

  function OnHeader(batch: Option<Batch>, m: Message): (Option<Batch>, Outcome)
    requires m.frame.Header?
  {
    if !m.gate.joined then (batch, PermissionDenied)
    else if TooLarge(m.frame) then (batch, PayloadTooLarge)
    else if m.gate.penalized && m.frame.total > PENALTY_PROBE_MAX_BYTES then (batch, InvalidUpdate)
    else (Some(Batch(Blank(m.frame.count), 0, m.frame.total)), Waiting)
  }

  function OnFragment(batch: Option<Batch>, m: Message): (Option<Batch>, Outcome)
    requires m.frame.Fragment?
  {
    match batch
    case None => (None, if m.gate.penalized then Ignored else FragmentTimeout)
    case Some(b) =>
      var parts := Put(b.parts, m.frame.index, m.frame.bytes);
      if b.received + 1 < |parts| then (Some(Batch(parts, b.received + 1, b.total)), Waiting)
      else
        var whole := Assembled(parts, b.total);
        (None, if whole.None? then Throws else Deliver([whole.value]))
  }

  function On(batch: Option<Batch>, m: Message): (Option<Batch>, Outcome) {
    match m.frame
    case DocUpdate(_, updates) =>
      (batch, if TooLarge(m.frame) then PayloadTooLarge
              else if !m.gate.joined then PermissionDenied
              else Deliver(updates))
    case Header(_, _, _) => OnHeader(batch, m)
    case Fragment(_, _, _) => OnFragment(batch, m)
  }

  function Updates(o: Outcome): seq<Bytes> {
    if o.Deliver? then o.updates else []
  }

  /** All updates handed on while the messages of one batch arrive, and what is still being gathered. */
  function ReceivedOne(batch: Option<Batch>, ms: seq<Message>): seq<Bytes>
    decreases |ms|
  {
    if ms == [] then [] else Updates(On(batch, ms[0]).1) + ReceivedOne(On(batch, ms[0]).0, ms[1..])
  }

  function LeftOne(batch: Option<Batch>, ms: seq<Message>): Option<Batch>
    decreases |ms|
  {
    if ms == [] then batch else LeftOne(On(batch, ms[0]).0, ms[1..])
  }

  // ── a whole socket ───────────────────────────────────────────────────────

  type Batches = map<BatchId, Batch>

  function Get(batches: Batches, id: BatchId): Option<Batch> {
    if id in batches then Some(batches[id]) else None
  }

  function Store(batches: Batches, id: BatchId, batch: Option<Batch>): Batches {
    if batch.Some? then batches[id := batch.value] else batches - {id}
  }

  function Step(batches: Batches, m: Message): (Batches, Outcome) {
    var (batch, outcome) := On(Get(batches, m.frame.id), m);
    (Store(batches, m.frame.id, batch), outcome)
  }

  function Received(batches: Batches, ms: seq<Message>): seq<Bytes>
    decreases |ms|
  {
    if ms == [] then [] else Updates(Step(batches, ms[0]).1) + Received(Step(batches, ms[0]).0, ms[1..])
  }

  function Left(batches: Batches, ms: seq<Message>): Batches
    decreases |ms|
  {
    if ms == [] then batches else Left(Step(batches, ms[0]).0, ms[1..])
  }

  /** The part of `Received` that messages of batch `id` caused. */
  function ReceivedFor(id: BatchId, batches: Batches, ms: seq<Message>): seq<Bytes>
    decreases |ms|
  {
    if ms == [] then []
    else
      (if ms[0].frame.id == id then Updates(Step(batches, ms[0]).1) else [])
      + ReceivedFor(id, Step(batches, ms[0]).0, ms[1..])
  }

  function Only(id: BatchId, ms: seq<Message>): seq<Message> {
    if ms == [] then [] else (if ms[0].frame.id == id then [ms[0]] else []) + Only(id, ms[1..])
  }

  /** Batches do not disturb each other: what a batch yields is what its own messages yield. */
  lemma {:induction false} BatchesIndependent(id: BatchId, batches: Batches, ms: seq<Message>)
    ensures ReceivedFor(id, batches, ms) == ReceivedOne(Get(batches, id), Only(id, ms))
    ensures Get(Left(batches, ms), id) == LeftOne(Get(batches, id), Only(id, ms))
    decreases |ms|
  {
    if ms != [] {
      var next := Step(batches, ms[0]).0;
      BatchesIndependent(id, next, ms[1..]);
      if ms[0].frame.id == id {
        assert Only(id, ms)[0] == ms[0] && Only(id, ms)[1..] == Only(id, ms[1..]);
        assert Get(next, id) == On(Get(batches, id), ms[0]).0;
      } else {
        assert Get(next, id) == Get(batches, id);
        assert Only(id, ms) == Only(id, ms[1..]);
      }
    }
  }

  lemma StoreSame(batches: Batches, id: BatchId)
    ensures Store(batches, id, Get(batches, id)) == batches
  {
    if id in batches {
      assert batches[id := batches[id]] == batches;
    } else {
      assert batches - {id} == batches;
    }
  }

  class Socket {
    var batches: Batches

    constructor ()
      ensures batches == map[]
    {
      batches := map[];
    }

    method HandleFragmentHeader(m: Message) returns (o: Outcome)
      requires m.frame.Header?
      modifies this
      ensures (batches, o) == Step(old(batches), m)
    {
      StoreSame(batches, m.frame.id);
      if !m.gate.joined {
        return PermissionDenied;
      }
      if m.frame.total > MAX_REASSEMBLED_BYTES || m.frame.count > MAX_FRAGMENT_COUNT {
        return PayloadTooLarge;
      }
      if m.frame.total > PENALTY_PROBE_MAX_BYTES && m.gate.penalized {
        return InvalidUpdate;
      }
      batches := batches[m.frame.id := Batch(Blank(m.frame.count), 0, m.frame.total)];
      return Waiting;
    }

    method HandleFragment(m: Message) returns (o: Outcome)
      requires m.frame.Fragment?
      modifies this
      ensures (batches, o) == Step(old(batches), m)
    {
      var id := m.frame.id;
      StoreSame(batches, id);
      if id !in batches {
        return if m.gate.penalized then Ignored else FragmentTimeout;
      }
      var batch := batches[id];
      var parts := Put(batch.parts, m.frame.index, m.frame.bytes);
      if batch.received + 1 < |parts| {
        batches := batches[id := Batch(parts, batch.received + 1, batch.total)];
        return Waiting;
      }
      batches := batches - {id};
      var whole := Assemble(parts, batch.total);
      o := if whole.None? then Throws else Deliver([whole.value]);
    }
  }

  /** Copying the parts into a zeroed buffer. */
  method Assemble(parts: seq<Option<Bytes>>, total: nat) returns (whole: Option<Bytes>)
    ensures whole == Assembled(parts, total)
  {
    var buffer := new Byte[total](_ => 0);
    var off := 0;
    for i := 0 to |parts|
      invariant off <= total && Joined(parts[..i]) == Some(buffer[..off])
      invariant buffer[off..] == Zeros(total - off)
    {
      assert parts[..i + 1][..i] == parts[..i];
      if parts[i].None? {
        JoinedFails(parts, i + 1, total);
        return None;
      }
      var part := parts[i].value;
      if off + |part| > total {
        JoinedFails(parts, i + 1, total);
        return None;
      }
      ghost var was := buffer[..off];
      forall k | 0 <= k < |part| {
        buffer[off + k] := part[k];
      }
      off := off + |part|;
      assert buffer[..off] == was + part;
    }
    assert parts[..|parts|] == parts;
    assert buffer[..] == buffer[..off] + buffer[off..];
    whole := Some(buffer[..]);
  }

  lemma {:induction false} JoinedFails(parts: seq<Option<Bytes>>, n: nat, total: nat)
    requires n <= |parts|
    requires Joined(parts[..n]).None? || |Joined(parts[..n]).value| > total
    ensures Joined(parts).None? || |Joined(parts).value| > total
    decreases |parts| - n
  {
    if n < |parts| {
      assert parts[..n + 1][..n] == parts[..n];
      JoinedFails(parts, n + 1, total);
    } else {
      assert parts[..n] == parts;
    }
  }

  // ── fragments in any order ───────────────────────────────────────────────

  function Count(update: Bytes): nat {
    (|update| + FRAGMENT_BYTES - 1) / FRAGMENT_BYTES
  }

  function Slice(update: Bytes, i: nat): (r: Bytes)
    requires i < Count(update)
    ensures 0 < |r| <= FRAGMENT_BYTES
  {
    var end := if (i + 1) * FRAGMENT_BYTES <= |update| then (i + 1) * FRAGMENT_BYTES else |update|;
    update[i * FRAGMENT_BYTES..end]
  }

  /** The first `n` slots filled as they should be. */
  function Slices(update: Bytes, n: nat): seq<Option<Bytes>>
    requires n <= Count(update)
  {
    if n == 0 then [] else Slices(update, n - 1) + [Some(Slice(update, n - 1))]
  }

  lemma {:induction false} SlicesAt(update: Bytes, n: nat, i: nat)
    requires i < n <= Count(update)
    ensures |Slices(update, n)| == n && Slices(update, n)[i] == Some(Slice(update, i))
  {
    if n > 1 {
      SlicesAt(update, n - 1, if i < n - 1 then i else 0);
    }
  }

  lemma {:induction false} SlicesJoin(update: Bytes, n: nat)
    requires n <= Count(update)
    ensures Joined(Slices(update, n)) == Some(update[..Covered(update, n)])
  {
    if n > 0 {
      SlicesJoin(update, n - 1);
      JoinedPush(Slices(update, n - 1), Slice(update, n - 1));
      SliceExtends(update, n - 1);
    }
  }

  /** How many bytes the first `n` slices hold. */
  function Covered(update: Bytes, n: nat): (r: nat)
    ensures r <= |update|
  {
    if n * FRAGMENT_BYTES <= |update| then n * FRAGMENT_BYTES else |update|
  }

  lemma SliceExtends(update: Bytes, n: nat)
    requires n < Count(update)
    ensures update[..Covered(update, n)] + Slice(update, n) == update[..Covered(update, n + 1)]
  {
    assert Covered(update, n) == n * FRAGMENT_BYTES;
  }

  lemma {:induction false} JoinedPush(parts: seq<Option<Bytes>>, part: Bytes)
    requires Joined(parts).Some?
    ensures Joined(parts + [Some(part)]) == Some(Joined(parts).value + part)
  {
    assert (parts + [Some(part)])[..|parts|] == parts;
  }

  lemma {:induction false} SlicesAssemble(update: Bytes)
    ensures Assembled(Slices(update, Count(update)), |update|) == Some(update)
  {
    var n := Count(update);
    SlicesJoin(update, n);
    assert n * FRAGMENT_BYTES >= |update|;
    assert update[..|update|] == update;
    assert update + Zeros(0) == update;
  }

  ghost predicate Permutation(order: seq<nat>, n: nat) {
    && |order| == n
    && (forall k :: 0 <= k < n ==> order[k] < n)
    && (forall j, k :: 0 <= j < k < n ==> order[j] != order[k])
  }

  function UpTo(n: nat): (r: set<nat>)
    ensures |r| == n && forall i: nat :: i in r <==> i < n
  {
    if n == 0 then {} else UpTo(n - 1) + {n - 1}
  }

  function Elements(order: seq<nat>): set<nat> {
    set x | x in order
  }

  lemma {:induction false} DistinctCount(order: seq<nat>)
    requires forall j, k :: 0 <= j < k < |order| ==> order[j] != order[k]
    ensures |Elements(order)| == |order|
  {
    if order != [] {
      var init, last := order[..|order| - 1], order[|order| - 1];
      DistinctCount(init);
      assert Elements(order) == Elements(init) + {last};
      assert last !in Elements(init);
    }
  }

  /** A permutation leaves out no index. */
  lemma PermutationCovers(order: seq<nat>, n: nat, i: nat)
    requires Permutation(order, n) && i < n
    ensures i in order
  {
    var seen := Elements(order);
    DistinctCount(order);
    if i !in order {
      var rest := UpTo(n) - {i};
      assert |rest| == n - 1;
      assert seen <= rest;
      Subset(seen, rest);
    }
  }

  lemma {:induction false} Subset(a: set<nat>, b: set<nat>)
    requires a <= b
    ensures |a| <= |b|
  {
    if a != {} {
      var x :| x in a;
      Subset(a - {x}, b - {x});
    }
  }

  /** The slots after the fragments numbered `order[..k]` arrived. */
  function Filled(update: Bytes, arrived: seq<nat>): seq<Option<Bytes>> {
    seq(Count(update), i requires 0 <= i < Count(update) => Some(if i in arrived then Slice(update, i) else []))
  }

  function Arrivals(id: BatchId, update: Bytes, order: seq<nat>, gates: seq<Gate>): seq<Message>
    requires |order| == |gates| && forall k :: 0 <= k < |order| ==> order[k] < Count(update)
  {
    seq(|order|, k requires 0 <= k < |order| => Message(Fragment(id, order[k], Slice(update, order[k])), gates[k]))
  }

  lemma {:induction false} FilledAll(update: Bytes, order: seq<nat>)
    requires Permutation(order, Count(update))
    ensures Filled(update, order) == Slices(update, Count(update))
  {
    var n := Count(update);
    if n > 0 {
      SlicesAt(update, n, 0);
    }
    forall i | 0 <= i < n ensures Filled(update, order)[i] == Slices(update, n)[i] {
      PermutationCovers(order, n, i);
      SlicesAt(update, n, i);
    }
  }

  lemma FilledStep(update: Bytes, order: seq<nat>, k: nat)
    requires k < |order| && order[k] < Count(update)
    ensures Put(Filled(update, order[..k]), order[k], Slice(update, order[k])) == Filled(update, order[..k + 1])
  {
    assert order[..k + 1] == order[..k] + [order[k]];
  }

  ghost predicate InRange(order: seq<nat>, n: nat) {
    forall k :: 0 <= k < |order| ==> order[k] < n
  }

  /** What the first arrivals make of a batch: nothing while slots are left, then whatever was filled in. */
  function Made(update: Bytes, order: seq<nat>): seq<Bytes> {
    if |order| < Count(update) then []
    else
      var whole := Assembled(Filled(update, order[..Count(update)]), |update|);
      if whole.Some? then [whole.value] else []
  }

  /** Fragments nobody announced, or that come after their batch is closed, yield nothing. */
  lemma {:induction false} UnannouncedDropped(ms: seq<Message>)
    requires forall k :: 0 <= k < |ms| ==> ms[k].frame.Fragment?
    ensures ReceivedOne(None, ms) == [] && LeftOne(None, ms) == None
    decreases |ms|
  {
    if ms != [] {
      UnannouncedDropped(ms[1..]);
    }
  }

  /** As many arrivals as there are slots close the batch, whichever slots they were for. */
  lemma {:induction false} ArrivalsFrom(id: BatchId, update: Bytes, order: seq<nat>, gates: seq<Gate>, k: nat)
    requires InRange(order, Count(update)) && |gates| == |order| && k <= |order| && k < Count(update)
    ensures var batch := Some(Batch(Filled(update, order[..k]), k, |update|));
      var ms := Arrivals(id, update, order, gates)[k..];
      ReceivedOne(batch, ms) == Made(update, order)
      && (|order| >= Count(update) ==> LeftOne(batch, ms) == None)
    decreases |order| - k
  {
    var ms := Arrivals(id, update, order, gates)[k..];
    if k < |order| {
      ArrivalStep(id, update, order, gates[k], k);
      assert ms[1..] == Arrivals(id, update, order, gates)[k + 1..];
      if k + 1 < Count(update) {
        ArrivalsFrom(id, update, order, gates, k + 1);
      } else {
        UnannouncedDropped(ms[1..]);
      }
    }
  }

  lemma ArrivalStep(id: BatchId, update: Bytes, order: seq<nat>, gate: Gate, k: nat)
    requires InRange(order, Count(update)) && k < |order| && k < Count(update)
    ensures var parts := Filled(update, order[..k + 1]);
      var whole := Assembled(parts, |update|);
      On(Some(Batch(Filled(update, order[..k]), k, |update|)),
         Message(Fragment(id, order[k], Slice(update, order[k])), gate))
      == if k + 1 < Count(update) then (Some(Batch(parts, k + 1, |update|)), Waiting)
         else (None, if whole.None? then Throws else Deliver([whole.value]))
  {
    FilledStep(update, order, k);
  }

  /** A slot left empty makes the joined bytes too short. */
  lemma {:induction false} FilledShort(update: Bytes, arrived: seq<nat>, n: nat, i: nat)
    requires n <= Count(update)
    ensures var joined := Joined(Filled(update, arrived)[..n]);
      var upTo := if n * FRAGMENT_BYTES <= |update| then n * FRAGMENT_BYTES else |update|;
      joined.Some? && |joined.value| <= upTo && (i < n && i !in arrived ==> |joined.value| < upTo)
  {
    if n > 0 {
      FilledShort(update, arrived, n - 1, i);
      var now := Filled(update, arrived)[..n];
      assert now[..n - 1] == Filled(update, arrived)[..n - 1];
      assert now[n - 1] == Some(if n - 1 in arrived then Slice(update, n - 1) else []);
    }
  }

  /** The room takes the header. */
  predicate Admits(gate: Gate, update: Bytes) {
    && gate.joined
    && |update| <= MAX_REASSEMBLED_BYTES
    && !(gate.penalized && |update| > PENALTY_PROBE_MAX_BYTES)
  }

  function Announce(id: BatchId, update: Bytes, gate: Gate): Message {
    Message(Header(id, Count(update), |update|), gate)
  }

  lemma {:induction false} AnnouncedArrivals(id: BatchId, update: Bytes, gate: Gate, order: seq<nat>, gates: seq<Gate>,
                                             batch: Option<Batch>)
    requires update != [] && Admits(gate, update) && InRange(order, Count(update)) && |gates| == |order|
    ensures var ms := [Announce(id, update, gate)] + Arrivals(id, update, order, gates);
      ReceivedOne(batch, ms) == Made(update, order) && (|order| >= Count(update) ==> LeftOne(batch, ms) == None)
  {
    var arrivals := Arrivals(id, update, order, gates);
    assert 0 < Count(update) <= MAX_FRAGMENT_COUNT;
    var ms := [Announce(id, update, gate)] + arrivals;
    ArrivalsFrom(id, update, order, gates, 0);
    assert Filled(update, order[..0]) == Blank(Count(update));
    assert ms[1..] == arrivals[0..];
    assert On(batch, ms[0]) == (Some(Batch(Filled(update, order[..0]), 0, |update|)), Waiting);
  }

  /** Once each, and then possibly more of the same. */
  ghost predicate CompleteFirst(order: seq<nat>, n: nat) {
    |order| >= n && Permutation(order[..n], n)
  }

  lemma CompleteMakes(update: Bytes, order: seq<nat>)
    requires InRange(order, Count(update)) && CompleteFirst(order, Count(update))
    ensures Made(update, order) == [update]
  {
    FilledAll(update, order[..Count(update)]);
    SlicesAssemble(update);
  }

  /** One update announced and its fragments delivered once each, in any order, comes out exactly and
      leaves nothing behind. */
  lemma {:induction false} OneUpdateReassembles(id: BatchId, update: Bytes, gate: Gate, order: seq<nat>,
                                                gates: seq<Gate>,
                                                batch: Option<Batch>)
    requires update != [] && Admits(gate, update) && Permutation(order, Count(update)) && |gates| == |order|
    ensures var ms := [Announce(id, update, gate)] + Arrivals(id, update, order, gates);
      ReceivedOne(batch, ms) == [update] && LeftOne(batch, ms) == None
  {
    assert order[..Count(update)] == order;
    AnnouncedArrivals(id, update, gate, order, gates, batch);
    CompleteMakes(update, order);
  }

  function Ones(n: nat): Bytes {
    seq(n, _ => 1)
  }

  lemma MissingSlotCorrupts(len: nat, order: seq<nat>, i: nat)
    requires len > 0 && InRange(order, Count(Ones(len))) && |order| >= Count(Ones(len))
    requires i < Count(Ones(len)) && i !in order[..Count(Ones(len))]
    ensures Made(Ones(len), order) != [Ones(len)]
  {
    AssembledShort(Ones(len), order[..Count(Ones(len))], i);
  }

  lemma AssembledShort(update: Bytes, order: seq<nat>, i: nat)
    requires i < Count(update) && i !in order
    ensures var whole := Assembled(Filled(update, order), |update|);
      whole.Some? && |whole.value| == |update| && whole.value[|update| - 1] == 0
  {
    var slots := Filled(update, order);
    FilledShort(update, order, Count(update), i);
    assert slots[..Count(update)] == slots;
    assert Zeros(|update| - |Joined(slots).value|)[|update| - |Joined(slots).value| - 1] == 0;
  }

  /** The fragments counted are not checked to be different ones. Arrivals in this order, however many,
      restore every update of this length exactly when the first of them, as many as there are fragments,
      are all different; what comes later meets no batch. */
  lemma EachOnceExactly(id: BatchId, len: nat, gate: Gate, order: seq<nat>, gates: seq<Gate>)
    requires len > 0 && Admits(gate, Ones(len)) && InRange(order, Count(Ones(len))) && |gates| == |order|
    ensures CompleteFirst(order, Count(Ones(len))) <==>
      forall update: Bytes :: |update| == len ==>
        ReceivedOne(None, [Announce(id, update, gate)] + Arrivals(id, update, order, gates)) == [update]
  {
    if CompleteFirst(order, Count(Ones(len))) {
      forall update: Bytes | |update| == len
        ensures ReceivedOne(None, [Announce(id, update, gate)] + Arrivals(id, update, order, gates)) == [update]
      {
        AnnouncedArrivals(id, update, gate, order, gates, None);
        CompleteMakes(update, order);
      }
    } else {
      AnnouncedArrivals(id, Ones(len), gate, order, gates, None);
      IncompleteFails(len, order);
      assert |Ones(len)| == len;
    }
  }

  lemma IncompleteFails(len: nat, order: seq<nat>)
    requires len > 0 && InRange(order, Count(Ones(len))) && !CompleteFirst(order, Count(Ones(len)))
    ensures Made(Ones(len), order) != [Ones(len)]
  {
    var n := Count(Ones(len));
    if |order| >= n {
      var i := MissingIndex(order[..n]);
      MissingSlotCorrupts(len, order, i);
    }
  }

  /** A repeated index leaves some other out. */
  lemma MissingIndex(order: seq<nat>) returns (i: nat)
    requires InRange(order, |order|) && !Permutation(order, |order|)
    ensures i < |order| && i !in order
  {
    var j, k :| 0 <= j < k < |order| && order[j] == order[k];
    var rest := order[..k] + order[k + 1..];
    FewElements(rest);
    var n := |order|;
    assert exists x: nat :: x in UpTo(n) && x !in Elements(rest) by {
      if UpTo(n) <= Elements(rest) {
        Subset(UpTo(n), Elements(rest));
      }
    }
    i :| i in UpTo(n) && i !in Elements(rest);
    StillThere(order, j, k, i);
  }

  lemma StillThere(order: seq<nat>, j: nat, k: nat, x: nat)
    requires j < k < |order| && order[j] == order[k]
    ensures x in order ==> x in order[..k] + order[k + 1..]
  {
    var rest := order[..k] + order[k + 1..];
    if x in order {
      var at :| 0 <= at < |order| && order[at] == x;
      assert rest[if at < k then at else if at > k then at - 1 else j] == x;
    }
  }

  lemma {:induction false} FewElements(order: seq<nat>)
    ensures |Elements(order)| <= |order|
  {
    if order != [] {
      var init, last := order[..|order| - 1], order[|order| - 1];
      FewElements(init);
      assert Elements(order) == Elements(init) + {last};
    }
  }

  /** Any number of batches in any interleaving: if the messages of batch `id` are a header and each
      fragment once, then whatever arrives in between, exactly that update comes out of the batch. */
  lemma {:induction false} InterleavedReassembles(id: BatchId, update: Bytes, gate: Gate, order: seq<nat>,
                                                  gates: seq<Gate>,
                                                  batches: Batches, ms: seq<Message>)
    requires update != [] && Admits(gate, update) && Permutation(order, Count(update)) && |gates| == |order|
    requires Only(id, ms) == [Announce(id, update, gate)] + Arrivals(id, update, order, gates)
    ensures ReceivedFor(id, batches, ms) == [update] && id !in Left(batches, ms)
  {
    BatchesIndependent(id, batches, ms);
    OneUpdateReassembles(id, update, gate, order, gates, Get(batches, id));
  }
}
