/**
 The resumable checkpoint download (crates/engine/src/chat2_host.rs) against the range-serving
 route (edge/src/chat-room.ts). What the server holds at each attempt and how much of each answer
 arrives are parameters.
 */
module CheckpointFetch {
  import opened Common
  import opened ChatLog

  /** A committed checkpoint; every answer is stamped with its seq. */
  datatype Checkpoint = Checkpoint(seqNo: nat, bytes: Bytes)

  datatype Response = Response(status: nat, seqNo: Option<nat>, body: Bytes)

  /** Open-ended ranges only; a start at or past the end is refused without a seq stamp. */
  function Serve(held: Option<Checkpoint>, start: nat): Response {
    match held
    case None => Response(404, None, [])
    case Some(cp) =>
      if start > 0 && start >= |cp.bytes| then Response(416, None, [])
      else if start > 0 then Response(206, Some(cp.seqNo), cp.bytes[start..])
      else Response(200, Some(cp.seqNo), cp.bytes)
  }

  /** How an attempt ends: no token, no connection, the body cut after some bytes, or complete. */
  datatype Link = SignedOut | SendFails | Cut(bytes: nat) | Complete

  datatype FetchError = AuthError | ProtocolError

  datatype Progress = Progress(got: Bytes, seen: Option<nat>)

  datatype Outcome = Retry(p: Progress) | Finished(result: Result<Bytes, FetchError>)

  function Prefix(body: Bytes, n: nat): Bytes {
    if n <= |body| then body[..n] else body
  }

  function Attempt(p: Progress, held: Option<Checkpoint>, link: Link): Outcome {
    if link.SignedOut? then Finished(Err(AuthError))
    else if link.SendFails? then Retry(p)
    else
      var res := Serve(held, |p.got|);
      if res.seqNo.Some? && p.seen.Some? && res.seqNo != p.seen then Retry(Progress([], res.seqNo))
      else
        var seen := if res.seqNo.Some? then res.seqNo else p.seen;
        if res.status != 200 && res.status != 206 then Finished(Err(ProtocolError))
        else
          var base := if res.status == 200 then [] else p.got;
          match link
          case Cut(n) => Retry(Progress(base + Prefix(res.body, n), seen))
          case _ => Finished(Ok(base + res.body))
  }

  const ATTEMPTS: nat := 4

  /** The remaining attempts from the `i`-th. */
  function FetchFrom(p: Progress, held: seq<Option<Checkpoint>>, links: seq<Link>, i: nat): Result<Bytes, FetchError>
    requires |held| == |links| && i <= |held|
    decreases |held| - i
  {
    if i == |held| then Err(ProtocolError)
    else
      match Attempt(p, held[i], links[i])
      case Finished(result) => result
      case Retry(next) => FetchFrom(next, held, links, i + 1)
  }

  predicate SameSeq(a: Option<Checkpoint>, b: Option<Checkpoint>) {
    a.Some? && b.Some? && a.value.seqNo == b.value.seqNo
  }

  /** A seq names one blob. */
  ghost predicate SeqsNameBlobs(held: seq<Option<Checkpoint>>) {
    forall i, j :: 0 <= i < |held| && 0 <= j < |held| && SameSeq(held[i], held[j]) ==> held[i] == held[j]
  }

  predicate Opens(p: Progress, held: Option<Checkpoint>) {
    held.Some? && p.seen == Some(held.value.seqNo) && p.got <= held.value.bytes
  }

  /** The bytes so far open the blob their seq names. */
  ghost predicate OneBlob(p: Progress, held: seq<Option<Checkpoint>>) {
    p.got != [] ==> p.seen.Some? && exists j :: 0 <= j < |held| && Opens(p, held[j])
  }

  lemma AttemptKeepsOneBlob(p: Progress, held: seq<Option<Checkpoint>>, i: nat, link: Link)
    requires i < |held| && SeqsNameBlobs(held) && OneBlob(p, held)
    ensures match Attempt(p, held[i], link)
            case Retry(next) => OneBlob(next, held)
            case Finished(result) => result.Ok? ==> held[i].Some? && result.value == held[i].value.bytes
  {
    if !link.SignedOut? && !link.SendFails? && held[i].Some? {
      var cp := held[i].value;
      var res := Serve(held[i], |p.got|);
      if res.status == 206 && p.seen == Some(cp.seqNo) {
        var j :| 0 <= j < |held| && Opens(p, held[j]);
        assert SameSeq(held[j], held[i]);
        assert p.got + cp.bytes[|p.got|..] == cp.bytes;
        if link.Cut? {
          assert Opens(Progress(p.got + Prefix(res.body, link.bytes), Some(cp.seqNo)), held[i]);
        }
      } else if res.status == 200 && link.Cut? {
        assert Opens(Progress([] + Prefix(res.body, link.bytes), Some(cp.seqNo)), held[i]);
      }
    }
  }

  /** Whatever drops and replacements happen, the download returns an error or the complete bytes of
      the single checkpoint the server held when it completed. */
  lemma {:induction false} NoSplice(p: Progress, held: seq<Option<Checkpoint>>, links: seq<Link>, i: nat)
    requires |held| == |links| && i <= |held| && SeqsNameBlobs(held) && OneBlob(p, held)
    ensures var r := FetchFrom(p, held, links, i);
      r.Ok? ==> exists j :: i <= j < |held| && held[j].Some? && r.value == held[j].value.bytes
    decreases |held| - i
  {
    if i < |held| {
      AttemptKeepsOneBlob(p, held, i, links[i]);
      match Attempt(p, held[i], links[i]) {
        case Retry(next) => NoSplice(next, held, links, i + 1);
        case Finished(_) =>
      }
    }
  }

  method Fetch(held: seq<Option<Checkpoint>>, links: seq<Link>) returns (result: Result<Bytes, FetchError>)
    requires |held| == |links| == ATTEMPTS
    ensures result == FetchFrom(Progress([], None), held, links, 0)
    ensures SeqsNameBlobs(held) && result.Ok? ==>
      exists j :: 0 <= j < |held| && held[j].Some? && result.value == held[j].value.bytes
  {
    NoSpliceFromStart(held, links);
    var got: Bytes, seen: Option<nat> := [], None;
    var attempt := 0;
    while attempt < ATTEMPTS
      invariant 0 <= attempt <= ATTEMPTS
      invariant FetchFrom(Progress(got, seen), held, links, attempt) == FetchFrom(Progress([], None), held, links, 0)
    {
      var link := links[attempt];
      if link.SignedOut? {
        return Err(AuthError);
      }
      if !link.SendFails? {
        var res := Serve(held[attempt], |got|);
        if res.seqNo.Some? && seen.Some? && res.seqNo != seen {
          got, seen := [], res.seqNo;
        } else {
          if res.seqNo.Some? {
            seen := res.seqNo;
          }
          if res.status == 200 {
            got := [];
          } else if res.status != 206 {
            return Err(ProtocolError);
          }
          if link.Complete? {
            return Ok(got + res.body);
          }
          got := got + Prefix(res.body, link.bytes);
        }
      }
      attempt := attempt + 1;
    }
    return Err(ProtocolError);
  }

  lemma {:induction false} NoSpliceFromStart(held: seq<Option<Checkpoint>>, links: seq<Link>)
    requires |held| == |links|
    ensures var r := FetchFrom(Progress([], None), held, links, 0);
      SeqsNameBlobs(held) && r.Ok? ==> exists j :: 0 <= j < |held| && held[j].Some? && r.value == held[j].value.bytes
  {
    if SeqsNameBlobs(held) {
      NoSplice(Progress([], None), held, links, 0);
    }
  }

  // ── when the hypothesis holds ────────────────────────────────────────────

  /** The checkpoints a run of the log commits, in order. */
  function CommitsOf(events: seq<LogEvent>): seq<Checkpoint> {
    if events == [] then []
    else
      var init, e := events[..|events| - 1], events[|events| - 1];
      CommitsOf(init)
      + if e.Commit? && CommitCheckpoint(LogRun(init).0, e.covered, e.bytes).1.Committed?
        then [Checkpoint(e.covered, e.bytes)] else []
  }

  /** Seqs never go back, and none is above `floor`. */
  ghost predicate Climbing(cps: seq<Checkpoint>, floor: nat) {
    && (forall k :: 0 <= k < |cps| ==> cps[k].seqNo <= floor)
    && (forall j, k :: 0 <= j < k < |cps| ==> cps[j].seqNo <= cps[k].seqNo)
  }

  lemma ClimbingSnoc(cps: seq<Checkpoint>, floor: nat, cp: Checkpoint)
    requires Climbing(cps, floor) && floor <= cp.seqNo
    ensures Climbing(cps + [cp], cp.seqNo)
  {
  }

  lemma FloorStep(log: Log, history: seq<LogRow>, e: LogEvent)
    requires LogOk(log, history)
    ensures log.floor <= LogStep(log, e).floor
    ensures e.Commit? && CommitCheckpoint(log, e.covered, e.bytes).1.Committed? ==> LogStep(log, e).floor == e.covered
  {
    LogStepOk(log, history, e);
  }

  lemma {:induction false} CommitsUpToFloor(events: seq<LogEvent>)
    ensures Climbing(CommitsOf(events), LogRun(events).0.floor)
  {
    if events != [] {
      var init, e := events[..|events| - 1], events[|events| - 1];
      CommitsUpToFloor(init);
      LogConserved(init, 0, None);
      var log := LogRun(init).0;
      FloorStep(log, LogRun(init).1, e);
      if e.Commit? && CommitCheckpoint(log, e.covered, e.bytes).1.Committed? {
        ClimbingSnoc(CommitsOf(init), log.floor, Checkpoint(e.covered, e.bytes));
      }
    }
  }

  predicate DistinctSeqs(cps: seq<Checkpoint>) {
    forall j, k :: 0 <= j < k < |cps| ==> cps[j].seqNo != cps[k].seqNo
  }

  /** An accepted commit that does not reuse the seq of the checkpoint it replaces. */
  ghost predicate AdvancesAt(events: seq<LogEvent>, n: nat)
    requires n < |events|
  {
    TopsLast(CommitsOf(events[..n]), CommitsOf(events[..n + 1]))
  }

  lemma {:induction false} CommitsStep(events: seq<LogEvent>)
    requires events != []
    ensures var n := |events| - 1;
      var cps := CommitsOf(events[..n]);
      CommitsOf(events) == cps || (events[n].Commit? && CommitsOf(events) == cps + [Checkpoint(events[n].covered, events[n].bytes)])
  {
  }

  lemma DistinctSnoc(cps: seq<Checkpoint>, cp: Checkpoint)
    requires Climbing(cps, cp.seqNo)
    ensures DistinctSeqs(cps + [cp]) <==> DistinctSeqs(cps) && TopsLast(cps, cps + [cp])
  {
    var all := cps + [cp];
    assert all[|cps|] == cp;
    assert forall k :: 0 <= k < |cps| ==> all[k] == cps[k];
    if DistinctSeqs(all) {
      assert DistinctSeqs(cps) by {
        assert forall j, k :: 0 <= j < k < |cps| ==> all[j].seqNo != all[k].seqNo;
      }
      if cps != [] {
        assert all[|cps| - 1].seqNo != all[|cps|].seqNo;
      }
    }
  }

  ghost predicate Advancing(events: seq<LogEvent>) {
    forall n :: 0 <= n < |events| ==> AdvancesAt(events, n)
  }

  lemma AdvancingSnoc(events: seq<LogEvent>)
    requires events != []
    ensures Advancing(events) <==> Advancing(events[..|events| - 1]) && AdvancesAt(events, |events| - 1)
  {
    var init := events[..|events| - 1];
    forall n | 0 <= n < |init|
      ensures AdvancesAt(events, n) == AdvancesAt(init, n)
    {
      assert events[..n] == init[..n] && events[..n + 1] == init[..n + 1];
    }
    if Advancing(events) {
      forall n | 0 <= n < |init|
        ensures AdvancesAt(init, n)
      {
        assert AdvancesAt(events, n);
      }
    }
  }

  lemma {:induction false} DistinctStep(events: seq<LogEvent>)
    requires events != []
    ensures DistinctSeqs(CommitsOf(events)) <==>
      DistinctSeqs(CommitsOf(events[..|events| - 1])) && AdvancesAt(events, |events| - 1)
  {
    var m := |events| - 1;
    AdvancesLast(events);
    CommitsStep(events);
    if CommitsOf(events) != CommitsOf(events[..m]) {
      NewSeqTops(events);
      DistinctSnoc(CommitsOf(events[..m]), Checkpoint(events[m].covered, events[m].bytes));
    }
  }

  predicate TopsLast(cps: seq<Checkpoint>, more: seq<Checkpoint>) {
    |more| > |cps| > 0 ==> more[|more| - 1].seqNo > cps[|cps| - 1].seqNo
  }

  lemma {:induction false} AdvancesLast(events: seq<LogEvent>)
    requires events != []
    ensures AdvancesAt(events, |events| - 1) <==> TopsLast(CommitsOf(events[..|events| - 1]), CommitsOf(events))
  {
    assert events[..|events|] == events;
  }

  lemma {:induction false} NewSeqTops(events: seq<LogEvent>)
    requires events != [] && CommitsOf(events) != CommitsOf(events[..|events| - 1])
    ensures events[|events| - 1].Commit?
    ensures Climbing(CommitsOf(events[..|events| - 1]), events[|events| - 1].covered)
  {
    var e := events[|events| - 1];
    CommitsStep(events);
    CommitsUpToFloor(events);
    ClimbingInit(CommitsOf(events[..|events| - 1]), Checkpoint(e.covered, e.bytes), LogRun(events).0.floor);
  }

  lemma ClimbingInit(cps: seq<Checkpoint>, cp: Checkpoint, floor: nat)
    requires Climbing(cps + [cp], floor)
    ensures Climbing(cps, cp.seqNo)
  {
    var all := cps + [cp];
    assert all[|cps|] == cp;
    assert forall k :: 0 <= k < |cps| ==> all[k] == cps[k];
  }

  /** Committed checkpoints have distinct seqs exactly when every commit advances past the one it
      replaces: the log already keeps seqs from going back. */
  lemma {:induction false} DistinctIffAdvancing(events: seq<LogEvent>)
    ensures DistinctSeqs(CommitsOf(events)) <==> Advancing(events)
  {
    if events != [] {
      DistinctIffAdvancing(events[..|events| - 1]);
      AdvancingSnoc(events);
      DistinctStep(events);
    }
  }

  /** So where every commit advances, no download of that room's checkpoints is ever spliced. */
  lemma {:induction false} AdvancingRoomNeverSplices(events: seq<LogEvent>, held: seq<Option<Checkpoint>>,
                                                     links: seq<Link>)
    requires |held| == |links|
    requires Advancing(events)
    requires forall i :: 0 <= i < |held| && held[i].Some? ==> held[i].value in CommitsOf(events)
    ensures var r := FetchFrom(Progress([], None), held, links, 0);
      r.Ok? ==> exists j :: 0 <= j < |held| && held[j].Some? && r.value == held[j].value.bytes
  {
    DistinctIffAdvancing(events);
    var cps := CommitsOf(events);
    forall i, j | 0 <= i < |held| && 0 <= j < |held| && SameSeq(held[i], held[j])
      ensures held[i] == held[j]
    {
      var a :| 0 <= a < |cps| && cps[a] == held[i].value;
      var b :| 0 <= b < |cps| && cps[b] == held[j].value;
    }
    NoSpliceFromStart(held, links);
  }

  /** The guard is not strict: a second checkpoint at the current floor is accepted, and two blobs
      then share a seq. */
  lemma RecommitAtFloorIsAccepted(log: Log, history: seq<LogRow>, a: Bytes, b: Bytes)
    requires LogOk(log, history) && a != [] && b != []
    ensures var first := CommitCheckpoint(log, log.head, a);
      first.1.Committed? && CommitCheckpoint(first.0, log.head, b).1.Committed?
  {
    CommitOk(log, history, log.head, a);
    CommitOk(CommitCheckpoint(log, log.head, a).0, history, log.head, b);
  }

  /** And then a drop between the two splices them: the result is neither blob. */
  lemma SharedSeqSplices()
    ensures var a, b := Checkpoint(5, [1, 1, 1]), Checkpoint(5, [2, 2, 2]);
      var r := FetchFrom(Progress([], None), [Some(a), Some(b)], [Cut(1), Complete], 0);
      r.Ok? && r.value != a.bytes && r.value != b.bytes
  {
    var a, b := Checkpoint(5, [1, 1, 1]), Checkpoint(5, [2, 2, 2]);
    var held, links := [Some(a), Some(b)], [Cut(1), Complete];
    assert Prefix(a.bytes, 1) == [1];
    assert Attempt(Progress([], None), held[0], links[0]) == Retry(Progress([1], Some(5)));
    assert b.bytes[1..] == [2, 2];
    assert Serve(held[1], 1) == Response(206, Some(5), b.bytes[1..]);
    assert a.bytes[..1] + b.bytes[1..] == [1, 2, 2];
    assert Attempt(Progress([1], Some(5)), held[1], links[1]) == Finished(Ok([1, 2, 2]));
    assert FetchFrom(Progress([1], Some(5)), held, links, 1) == Ok([1, 2, 2]);
  }

  // ── exactly when ─────────────────────────────────────────────────────────

  /** The server holds one of `cps`, or nothing, at every attempt. */
  ghost predicate HeldFrom(cps: seq<Checkpoint>, held: seq<Option<Checkpoint>>) {
    forall i :: 0 <= i < |held| && held[i].Some? ==> held[i].value in cps
  }

  function Spliced(a: Checkpoint, b: Checkpoint, n: nat): Checkpoint
    requires n <= |a.bytes| && n <= |b.bytes|
  {
    Checkpoint(a.seqNo, a.bytes[..n] + b.bytes[n..])
  }

  /** Switching from one checkpoint to another of the same seq anywhere inside it gives a checkpoint again. */
  ghost predicate SplicesStay(cps: seq<Checkpoint>) {
    forall a, b, n :: a in cps && b in cps && a.seqNo == b.seqNo && 0 < n <= |a.bytes| && n < |b.bytes| ==>
      Spliced(a, b, n) in cps
  }

  /** A result that is one of the checkpoints, of a seq the server held. */
  ghost predicate WholeResult(cps: seq<Checkpoint>, held: seq<Option<Checkpoint>>, r: Result<Bytes, FetchError>) {
    r.Ok? ==> exists j :: 0 <= j < |held| && held[j].Some? && Checkpoint(held[j].value.seqNo, r.value) in cps
  }

  /** The bytes so far open a checkpoint of the seq seen last. */
  ghost predicate OpensSome(p: Progress, cps: seq<Checkpoint>) {
    p.got != [] ==> p.seen.Some? && exists a :: a in cps && a.seqNo == p.seen.value && p.got <= a.bytes
  }

  lemma AttemptOpens(p: Progress, cps: seq<Checkpoint>, cp: Checkpoint, link: Link)
    requires SplicesStay(cps) && OpensSome(p, cps) && cp in cps
    ensures match Attempt(p, Some(cp), link)
            case Retry(next) => OpensSome(next, cps)
            case Finished(result) => result.Ok? ==> Checkpoint(cp.seqNo, result.value) in cps
  {
    var res := Serve(Some(cp), |p.got|);
    if res.status == 206 && p.seen == Some(cp.seqNo) {
      var a :| a in cps && a.seqNo == cp.seqNo && p.got <= a.bytes;
      var whole := Spliced(a, cp, |p.got|);
      assert a.bytes[..|p.got|] == p.got;
      assert whole in cps && whole.bytes == p.got + res.body;
      if link.Cut? {
        assert p.got + Prefix(res.body, link.bytes) <= whole.bytes;
      }
    } else if res.status == 200 {
      assert Checkpoint(cp.seqNo, [] + res.body) == cp;
    }
  }

  lemma {:induction false} FetchStays(p: Progress, cps: seq<Checkpoint>, held: seq<Option<Checkpoint>>,
                                      links: seq<Link>, i: nat)
    requires |held| == |links| && i <= |held| && HeldFrom(cps, held)
    requires SplicesStay(cps) && OpensSome(p, cps)
    ensures WholeResult(cps, held, FetchFrom(p, held, links, i))
    decreases |held| - i
  {
    if i < |held| {
      if held[i].Some? {
        AttemptOpens(p, cps, held[i].value, links[i]);
      }
      match Attempt(p, held[i], links[i]) {
        case Retry(next) => FetchStays(next, cps, held, links, i + 1);
        case Finished(_) =>
      }
    }
  }

  /** The download that is cut after `n` bytes of `a` and completed from `b`. */
  lemma {:induction false} SpliceRuns(a: Checkpoint, b: Checkpoint, n: nat, held: seq<Option<Checkpoint>>,
                                      links: seq<Link>)
    requires a.seqNo == b.seqNo && 0 < n <= |a.bytes| && n < |b.bytes|
    requires |held| == |links| >= 2 && held[0] == Some(a) && held[1] == Some(b) && links[0] == Cut(n)
    requires links[1] == Complete
    ensures FetchFrom(Progress([], None), held, links, 0) == Ok(Spliced(a, b, n).bytes)
  {
    var p := Progress(a.bytes[..n], Some(a.seqNo));
    assert Attempt(Progress([], None), held[0], links[0]) == Retry(p) by {
      assert [] + a.bytes[..n] == a.bytes[..n];
    }
    assert Serve(held[1], n) == Response(206, Some(b.seqNo), b.bytes[n..]);
    assert Attempt(p, held[1], links[1]) == Finished(Ok(a.bytes[..n] + b.bytes[n..]));
    assert FetchFrom(p, held, links, 1) == Ok(a.bytes[..n] + b.bytes[n..]);
  }

  lemma BadSplice(cps: seq<Checkpoint>, attempts: nat) returns (held: seq<Option<Checkpoint>>, links: seq<Link>)
    requires attempts >= 2 && !SplicesStay(cps)
    ensures |held| == |links| == attempts && HeldFrom(cps, held)
    ensures !WholeResult(cps, held, FetchFrom(Progress([], None), held, links, 0))
  {
    var a, b, n :| a in cps && b in cps && a.seqNo == b.seqNo && 0 < n <= |a.bytes| && n < |b.bytes|
                   && Spliced(a, b, n) !in cps;
    held := [Some(a), Some(b)] + seq(attempts - 2, _ => None);
    links := [Cut(n), Complete] + seq(attempts - 2, _ => SendFails);
    SpliceRuns(a, b, n, held, links);
    var r := FetchFrom(Progress([], None), held, links, 0);
    forall j | 0 <= j < |held| && held[j].Some? ensures Checkpoint(held[j].value.seqNo, r.value) !in cps {
      assert j < 2;
    }
  }

  /** The client against any server that holds one of these at each attempt, in any order. However many
      attempts are made, from two up: no pattern of cuts and replacements among these
      checkpoints ever yields anything but one of them, if and only if they are closed under splicing. */
  lemma SplicesExactly(cps: seq<Checkpoint>, attempts: nat)
    requires attempts >= 2
    ensures SplicesStay(cps) <==>
      forall held, links :: |held| == |links| == attempts && HeldFrom(cps, held) ==>
        WholeResult(cps, held, FetchFrom(Progress([], None), held, links, 0))
  {
    if SplicesStay(cps) {
      forall held, links | |held| == |links| == attempts && HeldFrom(cps, held)
        ensures WholeResult(cps, held, FetchFrom(Progress([], None), held, links, 0))
      {
        FetchStays(Progress([], None), cps, held, links, 0);
      }
    } else {
      var held, links := BadSplice(cps, attempts);
    }
  }

  /** Distinct seqs are one way to be closed: then a splice is of a checkpoint with itself. */
  lemma DistinctStays(cps: seq<Checkpoint>)
    requires DistinctSeqs(cps)
    ensures SplicesStay(cps)
  {
    forall a, b, n | a in cps && b in cps && a.seqNo == b.seqNo && 0 < n <= |a.bytes| && n < |b.bytes|
      ensures Spliced(a, b, n) in cps
    {
      var i :| 0 <= i < |cps| && cps[i] == a;
      var j :| 0 <= j < |cps| && cps[j] == b;
      assert i == j;
      assert a.bytes[..n] + a.bytes[n..] == a.bytes;
    }
  }

  lemma {:induction false} AdvancingStays(events: seq<LogEvent>)
    requires Advancing(events)
    ensures SplicesStay(CommitsOf(events))
  {
    DistinctIffAdvancing(events);
    DistinctStays(CommitsOf(events));
  }
}
