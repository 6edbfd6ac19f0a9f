/**
 The pending queue over connections and restarts (crates/doc/src/registry.rs): batch ids come from the
 clock, every batch is pushed once per connection, and a restart brings back the clock and the queue as
 they were saved.
 */
module RegistryLink {
  import opened Common
  import opened Hlc
  import opened RegistryMerge
  import opened RegistryDoc
  import opened ListEdits

  /** The clock and the queue, in memory and as saved, with the ids pushed on the current connection and
      all ids ever given to a batch. */
  datatype Link = Link(clock: ClockState, saved: ClockState, pending: seq<PendingBatch>,
                       savedPending: seq<PendingBatch>, pushed: seq<string>, made: seq<string>)

  /** `StampOps` is the tick a write takes for its ops before it enqueues them. A load is a restart: the saved
      state comes back and no batch is in flight. */
  datatype LinkEvent =
    | StampOps(now: int, device: string)
    | Enqueue(ops: seq<RowOp>, device: string, wall: nat -> int)
    | Push
    | Disconnect
    | Ack(batch: string)
    | Persist
    | Restart

  function Names(batches: seq<PendingBatch>): (names: seq<string>)
    ensures |names| == |batches|
    ensures forall i :: 0 <= i < |batches| ==> names[i] == batches[i].batch
  {
    seq(|batches|, i requires 0 <= i < |batches| => batches[i].batch)
  }

  function LinkStep(l: Link, e: LinkEvent): Link {
    match e
    case StampOps(now, _) => l.(clock := Tick(l.clock, now))
    case Enqueue(ops, device, wall) =>
      var added := Chunk(ops, l.clock, device, wall, 0);
      l.(clock := ChunkClock(ops, l.clock, wall, 0), pending := l.pending + added, made := l.made + Names(added))
    case Push => l.(pending := Flag(l.pending, true), pushed := l.pushed + Names(Pushable(l.pending)))
    case Disconnect => l.(pending := Flag(l.pending, false), pushed := [])
    case Ack(batch) => l.(pending := Retire(l.pending, batch))
    case Persist => l.(saved := l.clock, savedPending := l.pending)
    case Restart => l.(clock := l.saved, pending := Flag(l.savedPending, false), pushed := [])
  }

  function LinkRun(events: seq<LinkEvent>): Link {
    if events == [] then Link(START, START, [], [], [], [])
    else LinkStep(LinkRun(events[..|events| - 1]), events[|events| - 1])
  }

  // ── the clock's part of a run ────────────────────────────────────────────

  function ChunkSteps(ops: seq<RowOp>, device: string, wall: nat -> int, k: nat): seq<ClockStep> {
    if ops == [] then [] else [Next(wall(k), device)] + ChunkSteps(ops[Head(ops)..], device, wall, k + 1)
  }

  function StepsOf(e: LinkEvent): seq<ClockStep> {
    match e
    case StampOps(now, device) => [Next(now, device)]
    case Enqueue(ops, device, wall) => ChunkSteps(ops, device, wall, 0)
    case Persist => [Save]
    case Restart => [Load]
    case _ => []
  }

  /** All calls, saves and loads of the clock in a run. */
  function ClockSteps(events: seq<LinkEvent>): seq<ClockStep> {
    if events == [] then [] else ClockSteps(events[..|events| - 1]) + StepsOf(events[|events| - 1])
  }

  /** The stamps that name the batches of a chunked list. */
  function ChunkStamps(ops: seq<RowOp>, s: ClockState, device: string, wall: nat -> int, k: nat): seq<Stamp> {
    if ops == [] then []
    else
      var t := Tick(s, wall(k));
      [Stamp(t, device)] + ChunkStamps(ops[Head(ops)..], t, device, wall, k + 1)
  }

  function BatchName(x: Stamp): string {
    BatchId(x.state, x.device)
  }

  function BatchNames(stamps: seq<Stamp>): (names: seq<string>)
    ensures |names| == |stamps|
    ensures forall i :: 0 <= i < |stamps| ==> names[i] == BatchName(stamps[i])
  {
    seq(|stamps|, i requires 0 <= i < |stamps| => BatchName(stamps[i]))
  }

  lemma {:induction false} ChunkNamed(ops: seq<RowOp>, s: ClockState, device: string, wall: nat -> int, k: nat)
    ensures Names(Chunk(ops, s, device, wall, k)) == BatchNames(ChunkStamps(ops, s, device, wall, k))
    ensures forall i :: 0 <= i < |Chunk(ops, s, device, wall, k)| ==> !Chunk(ops, s, device, wall, k)[i].inFlight
    decreases |ops|
  {
    if ops != [] {
      ChunkNamed(ops[Head(ops)..], Tick(s, wall(k)), device, wall, k + 1);
    }
  }

  /** Enqueueing calls the clock once per batch. */
  lemma {:induction false} ChunkCalls(steps: seq<ClockStep>, ops: seq<RowOp>, device: string, wall: nat -> int, k: nat)
    ensures var all, s := steps + ChunkSteps(ops, device, wall, k), After(START, steps);
      && After(START, all) == s.(clock := ChunkClock(ops, s.clock, wall, k))
      && Stamps(START, all) == Stamps(START, steps) + ChunkStamps(ops, s.clock, device, wall, k)
    decreases |ops|
  {
    if ops == [] {
      assert steps + [] == steps;
    } else {
      var first, tail := Next(wall(k), device), ops[Head(ops)..];
      StepSnoc(START, steps, first);
      ChunkCalls(steps + [first], tail, device, wall, k + 1);
      assert steps + ([first] + ChunkSteps(tail, device, wall, k + 1))
          == steps + [first] + ChunkSteps(tail, device, wall, k + 1);
      var t := Tick(After(START, steps).clock, wall(k));
      var x, rest := Stamp(t, device), ChunkStamps(tail, t, device, wall, k + 1);
      assert Stamps(START, steps) + ([x] + rest) == Stamps(START, steps) + [x] + rest;
    }
  }

  /** The stamps an event draws. */
  function Drawn(l: Link, e: LinkEvent): seq<Stamp> {
    match e
    case StampOps(now, device) => [Stamp(Tick(l.clock, now), device)]
    case Enqueue(ops, device, wall) => ChunkStamps(ops, l.clock, device, wall, 0)
    case _ => []
  }

  lemma {:induction false} StepDraws(l: Link, steps: seq<ClockStep>, e: LinkEvent)
    requires After(START, steps) == Source(l.clock, l.saved)
    ensures var next, all := LinkStep(l, e), steps + StepsOf(e);
      After(START, all) == Source(next.clock, next.saved) && Stamps(START, all) == Stamps(START, steps) + Drawn(l, e)
  {
    match e {
      case StampOps(now, device) => StepSnoc(START, steps, Next(now, device));
      case Enqueue(ops, device, wall) => ChunkCalls(steps, ops, device, wall, 0);
      case Persist => StepSnoc(START, steps, Save);
      case Restart => StepSnoc(START, steps, Load);
      case _ => assert steps + [] == steps;
    }
  }

  /** The clock of a run is the clock source after its calls, saves and loads. */
  lemma {:induction false} RunDraws(events: seq<LinkEvent>)
    ensures After(START, ClockSteps(events)) == Source(LinkRun(events).clock, LinkRun(events).saved)
    ensures events != [] ==>
      Stamps(START, ClockSteps(events))
      == Stamps(START, ClockSteps(events[..|events| - 1]))
         + Drawn(LinkRun(events[..|events| - 1]), events[|events| - 1])
  {
    if events != [] {
      var init := events[..|events| - 1];
      RunDraws(init);
      StepDraws(LinkRun(init), ClockSteps(init), events[|events| - 1]);
    }
  }

  // ── ids ──────────────────────────────────────────────────────────────────

  ghost predicate NamedBy(x: string, stamps: seq<Stamp>) {
    exists j :: 0 <= j < |stamps| && x == BatchName(stamps[j])
  }

  /** Every id given out is that of a stamp drawn. */
  ghost predicate MadeFrom(made: seq<string>, stamps: seq<Stamp>) {
    forall i :: 0 <= i < |made| ==> NamedBy(made[i], stamps)
  }

  lemma NamedByMore(x: string, stamps: seq<Stamp>, more: seq<Stamp>)
    ensures NamedBy(x, stamps) || NamedBy(x, more) ==> NamedBy(x, stamps + more)
  {
    var drawn := stamps + more;
    if NamedBy(x, stamps) {
      var j :| 0 <= j < |stamps| && x == BatchName(stamps[j]);
      assert x == BatchName(drawn[j]);
    } else if NamedBy(x, more) {
      var j :| 0 <= j < |more| && x == BatchName(more[j]);
      assert x == BatchName(drawn[|stamps| + j]);
    }
  }

  /** No two stamps drawn give the same id. */
  ghost predicate Apart(stamps: seq<Stamp>) {
    forall i, j :: 0 <= i < j < |stamps| ==> BatchName(stamps[i]) != BatchName(stamps[j])
  }

  lemma {:induction false} StringsAt(stamps: seq<Stamp>, i: nat)
    requires i < |stamps|
    ensures Strings(stamps)[i] == stamps[i].Encoded()
  {
    if i < |stamps| - 1 {
      StringsAt(stamps[..|stamps| - 1], i);
    }
  }

  lemma {:induction false} IncreasingApart(stamps: seq<Stamp>)
    requires Increasing(Strings(stamps))
    ensures Apart(stamps)
  {
    forall i, j | 0 <= i < j < |stamps| ensures BatchName(stamps[i]) != BatchName(stamps[j]) {
      StringsAt(stamps, i);
      StringsAt(stamps, j);
      LessTotal(stamps[i].Encoded(), stamps[i].Encoded());
      assert BatchName(stamps[i])[2..] == stamps[i].Encoded() && BatchName(stamps[j])[2..] == stamps[j].Encoded();
    }
  }

  /** Ids of newly drawn stamps are new, and different from each other. */
  lemma NewIds(made: seq<string>, stamps: seq<Stamp>, more: seq<Stamp>)
    requires Distinct(made) && MadeFrom(made, stamps) && Apart(stamps + more)
    ensures Distinct(made + BatchNames(more)) && MadeFrom(made + BatchNames(more), stamps + more)
  {
    var all, drawn := made + BatchNames(more), stamps + more;
    forall i | 0 <= i < |all| ensures NamedBy(all[i], drawn) {
      if i >= |made| {
        assert all[i] == BatchName(more[i - |made|]);
      }
      NamedByMore(all[i], stamps, more);
    }
    forall i, j | 0 <= i < j < |all| ensures all[i] != all[j] {
      if j >= |made| {
        NewId(made, stamps, more, i, j);
      }
    }
  }

  lemma NewId(made: seq<string>, stamps: seq<Stamp>, more: seq<Stamp>, i: nat, j: nat)
    requires MadeFrom(made, stamps) && Apart(stamps + more) && i < j && |made| <= j < |made| + |more|
    ensures (made + BatchNames(more))[i] != (made + BatchNames(more))[j]
  {
    var drawn, n := stamps + more, |stamps| + j - |made|;
    assert drawn[n] == more[j - |made|];
    if i < |made| {
      var m :| 0 <= m < |stamps| && made[i] == BatchName(stamps[m]);
      assert drawn[m] == stamps[m];
      assert BatchName(drawn[m]) != BatchName(drawn[n]);
    } else {
      assert drawn[|stamps| + i - |made|] == more[i - |made|];
      assert BatchName(drawn[|stamps| + i - |made|]) != BatchName(drawn[n]);
    }
  }

  lemma ApartInit(stamps: seq<Stamp>, more: seq<Stamp>)
    requires Apart(stamps + more)
    ensures Apart(stamps)
  {
    forall i, j | 0 <= i < j < |stamps| ensures BatchName(stamps[i]) != BatchName(stamps[j]) {
      assert (stamps + more)[i] == stamps[i] && (stamps + more)[j] == stamps[j];
    }
  }

  /** A tick that names no batch. */
  lemma MadeMore(made: seq<string>, stamps: seq<Stamp>, more: seq<Stamp>)
    requires MadeFrom(made, stamps)
    ensures MadeFrom(made, stamps + more)
  {
    forall i | 0 <= i < |made| ensures NamedBy(made[i], stamps + more) {
      NamedByMore(made[i], stamps, more);
    }
  }

  /** As long as no two stamps drawn give the same id, no two batches ever made share one. */
  lemma {:induction false} IdsDistinct(events: seq<LinkEvent>)
    requires Apart(Stamps(START, ClockSteps(events)))
    ensures Distinct(LinkRun(events).made) && MadeFrom(LinkRun(events).made, Stamps(START, ClockSteps(events)))
  {
    if events != [] {
      var init, e := events[..|events| - 1], events[|events| - 1];
      var l, before := LinkRun(init), Stamps(START, ClockSteps(init));
      RunDraws(events);
      ApartInit(before, Drawn(l, e));
      IdsDistinct(init);
      if e.Enqueue? {
        ChunkNamed(e.ops, l.clock, e.device, e.wall, 0);
        NewIds(l.made, before, Drawn(l, e));
      } else {
        MadeMore(l.made, before, Drawn(l, e));
      }
    }
  }

  // ── the queue ────────────────────────────────────────────────────────────

  lemma {:induction false} FlagAt(pending: seq<PendingBatch>, on: bool)
    ensures |Flag(pending, on)| == |pending|
    ensures forall i :: 0 <= i < |pending| ==> Flag(pending, on)[i] == pending[i].(inFlight := on)
  {
    if pending != [] {
      FlagAt(pending[..|pending| - 1], on);
    }
  }

  /** `small` is `big` with some batches left out. */
  ghost predicate Picked(small: seq<string>, big: seq<PendingBatch>, keep: PendingBatch -> bool) {
    && Distinct(small)
    && forall x :: x in small <==> exists i :: 0 <= i < |big| && big[i].batch == x && keep(big[i])
  }

  lemma {:induction false} PushableNames(pending: seq<PendingBatch>)
    requires Distinct(Names(pending))
    ensures Picked(Names(Pushable(pending)), pending, (b: PendingBatch) => !b.inFlight)
  {
    var keep := (b: PendingBatch) => !b.inFlight;
    if pending != [] {
      var n := |pending| - 1;
      var init, last := pending[..n], pending[n];
      assert forall i :: 0 <= i < n ==> Names(init)[i] == Names(pending)[i];
      PushableNames(init);
      var small := Names(Pushable(init));
      var out := Names(Pushable(pending));
      assert out == if keep(last) then small + [last.batch] else small;
      forall x
        ensures x in out <==> exists i :: 0 <= i < |pending| && pending[i].batch == x && keep(pending[i])
      {
        if x in small {
          var i :| 0 <= i < n && init[i].batch == x && keep(init[i]);
          assert pending[i].batch == x && keep(pending[i]);
        }
        if i :| 0 <= i < |pending| && pending[i].batch == x && keep(pending[i]) {
          if i < n {
            assert init[i].batch == x && keep(init[i]);
          }
        }
      }
      assert last.batch !in small by {
        assert forall i :: 0 <= i < n ==> Names(pending)[i] != Names(pending)[n];
      }
    }
  }

  lemma {:induction false} RetireKeeps(pending: seq<PendingBatch>, batch: string, b: PendingBatch)
    ensures b in Retire(pending, batch) <==> b in pending && b.batch != batch
  {
    if pending != [] {
      var init, last := pending[..|pending| - 1], pending[|pending| - 1];
      RetireKeeps(init, batch, b);
      assert pending == init + [last];
    }
  }

  lemma NamesInit(pending: seq<PendingBatch>)
    requires Distinct(Names(pending)) && pending != []
    ensures Distinct(Names(pending[..|pending| - 1]))
    ensures forall b :: b in pending[..|pending| - 1] ==> b.batch != pending[|pending| - 1].batch
  {
    var n := |pending| - 1;
    assert forall i :: 0 <= i < n ==> Names(pending[..n])[i] == Names(pending)[i] != Names(pending)[n];
  }

  lemma NamesSnoc(pending: seq<PendingBatch>, b: PendingBatch)
    requires Distinct(Names(pending)) && forall i :: 0 <= i < |pending| ==> pending[i].batch != b.batch
    ensures Distinct(Names(pending + [b]))
  {
    assert Names(pending + [b]) == Names(pending) + [b.batch];
  }

  lemma {:induction false} RetireDistinct(pending: seq<PendingBatch>, batch: string)
    requires Distinct(Names(pending))
    ensures Distinct(Names(Retire(pending, batch)))
  {
    if pending != [] {
      var init, last := pending[..|pending| - 1], pending[|pending| - 1];
      NamesInit(pending);
      RetireDistinct(init, batch);
      var kept := Retire(init, batch);
      forall i | 0 <= i < |kept| ensures kept[i].batch != last.batch {
        RetireKeeps(init, batch, kept[i]);
      }
      NamesSnoc(kept, last);
      assert Retire(pending, batch) == if last.batch == batch then kept else kept + [last];
    }
  }

  /** What an acknowledgement leaves: every other batch, unchanged and still in order. */
  lemma {:induction false} RetireFacts(pending: seq<PendingBatch>, batch: string)
    requires Distinct(Names(pending))
    ensures Distinct(Names(Retire(pending, batch)))
    ensures forall b :: b in Retire(pending, batch) <==> b in pending && b.batch != batch
  {
    RetireDistinct(pending, batch);
    forall b ensures b in Retire(pending, batch) <==> b in pending && b.batch != batch {
      RetireKeeps(pending, batch, b);
    }
  }

  ghost predicate AllIn(names: seq<string>, made: seq<string>) {
    forall i :: 0 <= i < |names| ==> names[i] in made
  }

  /** Distinct ids, each made once; in flight exactly what was pushed on this connection. */
  ghost predicate LinkOk(l: Link) {
    && Distinct(Names(l.pending)) && Distinct(Names(l.savedPending)) && Distinct(l.pushed) && Distinct(l.made)
    && AllIn(Names(l.pending), l.made) && AllIn(Names(l.savedPending), l.made) && AllIn(l.pushed, l.made)
    && (forall i :: 0 <= i < |l.pending| ==> (l.pending[i].inFlight <==> l.pending[i].batch in l.pushed))
  }

  lemma ConcatNames(a: seq<string>, b: seq<string>, made: seq<string>)
    requires Distinct(a) && AllIn(a, made) && Distinct(made + b)
    ensures Distinct(a + b) && AllIn(a + b, made + b)
  {
    var all := made + b;
    forall i, j | 0 <= i < j < |a + b| ensures (a + b)[i] != (a + b)[j] {
      if j >= |a| {
        var m := if i < |a| then IndexOf(made, a[i]) else |made| + i - |a|;
        assert all[m] == (a + b)[i] && all[|made| + j - |a|] == (a + b)[j];
      }
    }
    forall i | 0 <= i < |a + b| ensures (a + b)[i] in all {
      assert i >= |a| ==> all[|made| + i - |a|] == (a + b)[i];
    }
  }

  ghost function IndexOf(names: seq<string>, x: string): (i: nat)
    requires x in names
    ensures i < |names| && names[i] == x
  {
    var i :| 0 <= i < |names| && names[i] == x;
    i
  }

  lemma AllInMore(names: seq<string>, made: seq<string>, more: seq<string>)
    requires AllIn(names, made)
    ensures AllIn(names, made + more)
  {
  }

  lemma AddedOk(l: Link, clock: ClockState, added: seq<PendingBatch>)
    requires LinkOk(l) && Distinct(l.made + Names(added)) && forall k :: 0 <= k < |added| ==> !added[k].inFlight
    ensures LinkOk(l.(clock := clock, pending := l.pending + added, made := l.made + Names(added)))
  {
    assert Names(l.pending + added) == Names(l.pending) + Names(added);
    ConcatNames(Names(l.pending), Names(added), l.made);
    AllInMore(Names(l.savedPending), l.made, Names(added));
    AllInMore(l.pushed, l.made, Names(added));
    var pending := l.pending + added;
    forall i | 0 <= i < |pending| ensures pending[i].inFlight <==> pending[i].batch in l.pushed {
      AddedFlag(l, added, i);
    }
  }

  lemma EnqueueOk(l: Link, e: LinkEvent)
    requires LinkOk(l) && e.Enqueue? && Distinct(LinkStep(l, e).made)
    ensures LinkOk(LinkStep(l, e))
  {
    ChunkNamed(e.ops, l.clock, e.device, e.wall, 0);
    AddedOk(l, LinkStep(l, e).clock, Chunk(e.ops, l.clock, e.device, e.wall, 0));
  }

  lemma AddedFlag(l: Link, added: seq<PendingBatch>, i: nat)
    requires LinkOk(l) && Distinct(l.made + Names(added)) && i < |l.pending + added|
    requires forall k :: 0 <= k < |added| ==> !added[k].inFlight
    ensures (l.pending + added)[i].inFlight <==> (l.pending + added)[i].batch in l.pushed
  {
    if i >= |l.pending| {
      NotPushed(l.pushed, l.made, Names(added), i - |l.pending|);
    } else {
      assert (l.pending + added)[i] == l.pending[i];
    }
  }

  lemma NotPushed(pushed: seq<string>, made: seq<string>, added: seq<string>, k: nat)
    requires AllIn(pushed, made) && Distinct(made + added) && k < |added|
    ensures added[k] !in pushed
  {
    forall i | 0 <= i < |pushed| ensures pushed[i] != added[k] {
      assert (made + added)[IndexOf(made, pushed[i])] == pushed[i] && (made + added)[|made| + k] == added[k];
    }
  }

  lemma PushOk(l: Link)
    requires LinkOk(l)
    ensures LinkOk(LinkStep(l, Push))
  {
    var out := Names(Pushable(l.pending));
    FlagAt(l.pending, true);
    assert Names(LinkStep(l, Push).pending) == Names(l.pending);
    PushableNames(l.pending);
    forall x | x in out ensures x !in l.pushed && x in l.made {
      var i :| 0 <= i < |l.pending| && l.pending[i].batch == x && !l.pending[i].inFlight;
      assert Names(l.pending)[i] == x;
    }
    forall i | 0 <= i < |l.pending| ensures l.pending[i].batch in l.pushed + out {
      if !l.pending[i].inFlight {
        assert l.pending[i].batch in out;
      }
    }
  }

  lemma AckOk(l: Link, batch: string)
    requires LinkOk(l)
    ensures LinkOk(LinkStep(l, Ack(batch)))
  {
    var next := LinkStep(l, Ack(batch));
    RetireFacts(l.pending, batch);
    forall i | 0 <= i < |next.pending|
      ensures Names(next.pending)[i] in l.made
      ensures next.pending[i].inFlight <==> next.pending[i].batch in next.pushed
    {
      assert next.pending[i] in l.pending;
      var j :| 0 <= j < |l.pending| && l.pending[j] == next.pending[i];
      assert Names(l.pending)[j] in l.made;
    }
  }

  lemma {:induction false} FlagOk(pending: seq<PendingBatch>)
    ensures Names(Flag(pending, false)) == Names(pending)
    ensures forall i :: 0 <= i < |Flag(pending, false)| ==> !Flag(pending, false)[i].inFlight
  {
    FlagAt(pending, false);
  }

  lemma StepOk(l: Link, e: LinkEvent)
    requires LinkOk(l) && Distinct(LinkStep(l, e).made)
    ensures LinkOk(LinkStep(l, e))
  {
    match e {
      case StampOps(_, _) =>
      case Enqueue(_, _, _) => EnqueueOk(l, e);
      case Push => PushOk(l);
      case Disconnect => FlagOk(l.pending);
      case Ack(batch) => AckOk(l, batch);
      case Persist =>
      case Restart => FlagOk(l.savedPending);
    }
  }

  lemma {:induction false} RunOk(events: seq<LinkEvent>)
    requires Apart(Stamps(START, ClockSteps(events)))
    ensures LinkOk(LinkRun(events))
  {
    if events != [] {
      var init := events[..|events| - 1];
      RunDraws(events);
      ApartInit(Stamps(START, ClockSteps(init)), Drawn(LinkRun(init), events[|events| - 1]));
      RunOk(init);
      IdsDistinct(events);
      StepOk(LinkRun(init), events[|events| - 1]);
    }
  }

  // ── main results ─────────────────────────────────────────────────────────

  /** In every run whose clock calls are safe, restarts included: batch ids never collide, no batch is pushed
      twice on one connection, and the in-flight flags are exactly the pushed ids. */
  lemma {:induction false} LinkSafe(events: seq<LinkEvent>)
    requires InRange(Stamps(START, ClockSteps(events))) && SafeCalls(START, ClockSteps(events))
    ensures LinkOk(LinkRun(events))
  {
    IncreasingExactly(START, ClockSteps(events));
    IncreasingApart(Stamps(START, ClockSteps(events)));
    RunOk(events);
  }

  /** Without a load every call is safe. */
  lemma {:induction false} NoLoadSafe(events: seq<LinkEvent>)
    requires forall k :: 0 <= k < |events| ==> !events[k].Restart?
    ensures LoadsCurrent(START, ClockSteps(events))
  {
    if events != [] {
      var init, e := events[..|events| - 1], events[|events| - 1];
      NoLoadSafe(init);
      NoLoadSteps(ClockSteps(init), StepsOf(e));
      if e.Enqueue? {
        ChunkNoLoad(e.ops, e.device, e.wall, 0);
      }
    }
  }

  lemma {:induction false} ChunkNoLoad(ops: seq<RowOp>, device: string, wall: nat -> int, k: nat)
    ensures forall i :: 0 <= i < |ChunkSteps(ops, device, wall, k)| ==> ChunkSteps(ops, device, wall, k)[i].Next?
    decreases |ops|
  {
    if ops != [] {
      ChunkNoLoad(ops[Head(ops)..], device, wall, k + 1);
    }
  }

  lemma {:induction false} NoLoadSteps(steps: seq<ClockStep>, more: seq<ClockStep>)
    requires LoadsCurrent(START, steps)
    ensures (forall i :: 0 <= i < |more| ==> !more[i].Load?) ==> LoadsCurrent(START, steps + more)
  {
    if more == [] {
      assert steps + more == steps;
    } else if forall i :: 0 <= i < |more| ==> !more[i].Load? {
      var init := more[..|more| - 1];
      NoLoadSteps(steps, init);
      assert (steps + more)[..|steps + more| - 1] == steps + init;
    }
  }

  /** The clock strings a run draws, for ops and batches alike, strictly increase if and only if each call is
      safe: it finds the last clock drawn in memory, or a wall clock past it. */
  lemma {:induction false} DrawnExactly(events: seq<LinkEvent>)
    requires InRange(Stamps(START, ClockSteps(events)))
    ensures Increasing(Emitted(START, ClockSteps(events))) <==> SafeCalls(START, ClockSteps(events))
  {
    IncreasingExactly(START, ClockSteps(events));
  }

  /** A restart from a save made before the last enqueue gives two different batches one id. */
  lemma StaleRestartRepeats(a: RowOp, b: RowOp, device: string)
    ensures var wall := (k: nat) => 5;
      var l := LinkRun([Persist, Enqueue([a], device, wall), Push, Restart, Enqueue([b], device, wall)]);
      |l.made| == 2 && l.made[0] == l.made[1] && |l.pending| == 1 && l.pending[0].ops == [b]
  {
    var wall := (k: nat) => 5;
    var e, f := Enqueue([a], device, wall), Enqueue([b], device, wall);
    FirstLife(a, device, wall);
    var s4 := [Persist, e, Push, Restart];
    assert s4 + [f] == [Persist, e, Push, Restart, f];
    RunIs(s4, f);
    OneBatch(b, START, device, wall);
  }

  lemma FirstLife(a: RowOp, device: string, wall: nat -> int)
    requires wall(0) == 5
    ensures LinkRun([Persist, Enqueue([a], device, wall), Push, Restart])
         == Link(START, START, [], [], [], [BatchId(ClockState(5, 0), device)])
  {
    var e := Enqueue([a], device, wall);
    var s1, s2, s3, s4 := [Persist], [Persist, e], [Persist, e, Push], [Persist, e, Push, Restart];
    assert s1 == [] + [Persist] && s2 == s1 + [e] && s3 == s2 + [Push] && s4 == s3 + [Restart];
    var fresh0 := Link(START, START, [], [], [], []);
    RunIs([], Persist);
    RunIs(s1, e);
    EnqueueOne(fresh0, a, device, wall);
    RunIs(s2, Push);
    RunIs(s3, Restart);
    RestartForgets(LinkStep(fresh0, e));
  }

  lemma EnqueueOne(l: Link, op: RowOp, device: string, wall: nat -> int)
    requires l.pending == [] && l.made == []
    ensures var t := Tick(l.clock, wall(0));
      var next := LinkStep(l, Enqueue([op], device, wall));
      next.made == [BatchId(t, device)] && next.saved == l.saved && next.savedPending == l.savedPending
  {
    OneBatch(op, l.clock, device, wall);
  }

  /** With nothing saved, a restart forgets the queue but not that its ids were given out. */
  lemma RestartForgets(l: Link)
    requires l.savedPending == []
    ensures LinkStep(LinkStep(l, Push), Restart) == Link(l.saved, l.saved, [], [], [], l.made)
  {
  }

  lemma {:induction false} OneBatch(op: RowOp, s: ClockState, device: string, wall: nat -> int)
    ensures var t := Tick(s, wall(0));
      Chunk([op], s, device, wall, 0) == [PendingBatch(BatchId(t, device), [op], false)]
  {
    assert [op][..1] == [op] && [op][1..] == [];
    assert Chunk([], Tick(s, wall(0)), device, wall, 1) == [];
  }

  lemma {:induction false} RunIs(events: seq<LinkEvent>, e: LinkEvent)
    ensures LinkRun(events + [e]) == LinkStep(LinkRun(events), e)
  {
    assert (events + [e])[..|events|] == events;
  }

  // ── what is not acknowledged stays ───────────────────────────────────────

  ghost predicate Holds(pending: seq<PendingBatch>, b: PendingBatch) {
    exists i :: 0 <= i < |pending| && pending[i].batch == b.batch && pending[i].ops == b.ops
  }

  lemma {:induction false} FlagHolds(pending: seq<PendingBatch>, on: bool, b: PendingBatch)
    requires Holds(pending, b)
    ensures Holds(Flag(pending, on), b)
  {
    var i :| 0 <= i < |pending| && pending[i].batch == b.batch && pending[i].ops == b.ops;
    FlagAt(pending, on);
    assert Flag(pending, on)[i].batch == b.batch && Flag(pending, on)[i].ops == b.ops;
  }

  lemma HoldsStep(l: Link, e: LinkEvent, b: PendingBatch)
    requires Holds(l.pending, b) && e != Ack(b.batch) && (e.Restart? ==> Holds(l.savedPending, b))
    ensures Holds(LinkStep(l, e).pending, b)
  {
    var i :| 0 <= i < |l.pending| && l.pending[i].batch == b.batch && l.pending[i].ops == b.ops;
    var next := LinkStep(l, e);
    match e {
      case Enqueue(_, _, _) => assert next.pending[i] == l.pending[i];
      case Push => FlagHolds(l.pending, true, b);
      case Disconnect => FlagHolds(l.pending, false, b);
      case Restart => FlagHolds(l.savedPending, false, b);
      case Ack(batch) =>
        RetireKeeps(l.pending, batch, l.pending[i]);
        var j :| 0 <= j < |next.pending| && next.pending[j] == l.pending[i];
      case _ =>
    }
  }

  /** Event `k` does not acknowledge the batch, and no restart goes back to a save without it. */
  ghost predicate Keeps(events: seq<LinkEvent>, k: nat, b: PendingBatch)
    requires k < |events|
  {
    events[k] != Ack(b.batch) && (events[k].Restart? ==> Holds(LinkRun(events[..k]).savedPending, b))
  }

  /** A pending batch stays pending, with its ops, until its own id is acknowledged or a restart goes back to
      a save without it. */
  lemma {:induction false} UnackedStaysPending(events: seq<LinkEvent>, n: nat, b: PendingBatch)
    requires n <= |events| && Holds(LinkRun(events[..n]).pending, b)
    requires forall k :: n <= k < |events| ==> Keeps(events, k, b)
    ensures Holds(LinkRun(events).pending, b)
  {
    if n == |events| {
      assert events[..n] == events;
    } else {
      var m := |events| - 1;
      var init := events[..m];
      assert init[..n] == events[..n];
      forall k | n <= k < m ensures Keeps(init, k, b) {
        assert init[..k] == events[..k] && Keeps(events, k, b);
      }
      UnackedStaysPending(init, n, b);
      assert Keeps(events, m, b);
      HoldsStep(LinkRun(init), events[m], b);
    }
  }
}
