/**
 Checkpoint downloads from a room. A room only moves forward along its commits, so the bytes a download
 can put together are those of chains: start with one checkpoint, and at each cut go on with a later one
 of the same seq.
 */
module CheckpointChains {
  import opened Common
  import opened ChatLog
  import opened CheckpointFetch

  /** The checkpoints a download took bytes from, by commit index, with the cut before each but the first. */
  datatype Chain = First(i: nat) | Then(before: Chain, i: nat, cut: nat)
  {
    function Length(): nat {
      if First? then 1 else before.Length() + 1
    }

    function LastCut(): nat {
      if First? then 0 else cut
    }
  }

  /** The bytes the chain puts together if its last answer arrives whole. */
  function Mix(cps: seq<Checkpoint>, c: Chain): Bytes {
    if c.i >= |cps| then []
    else
      match c
      case First(i) => cps[i].bytes
      case Then(before, i, cut) =>
        var m := Mix(cps, before);
        if cut <= |m| && cut <= |cps[i].bytes| then m[..cut] + cps[i].bytes[cut..] else []
  }

  /** Commit indices and cuts never go back, the seq stays, and each cut lies inside what is being mixed. */
  ghost predicate ChainOk(cps: seq<Checkpoint>, c: Chain) {
    match c
    case First(i) => i < |cps|
    case Then(before, i, cut) =>
      && ChainOk(cps, before) && before.i <= i < |cps| && before.i < |cps|
      && cps[i].seqNo == cps[before.i].seqNo
      && before.LastCut() <= cut && 0 < cut <= |Mix(cps, before)| && cut < |cps[i].bytes|
  }

  ghost predicate MixIn(cps: seq<Checkpoint>, c: Chain) {
    c.i < |cps| && Checkpoint(cps[c.i].seqNo, Mix(cps, c)) in cps
  }

  /** Every mix that so many attempts can make is a checkpoint again. */
  ghost predicate MixesStay(cps: seq<Checkpoint>, attempts: nat) {
    forall c: Chain :: ChainOk(cps, c) && c.Length() <= attempts ==> MixIn(cps, c)
  }

  /** What a room with these commits holds once `n` of them are made. */
  function Latest(cps: seq<Checkpoint>, n: nat): Option<Checkpoint>
    requires n <= |cps|
  {
    if n == 0 then None else Some(cps[n - 1])
  }

  ghost predicate Forward(cps: seq<Checkpoint>, counts: seq<nat>) {
    && (forall i :: 0 <= i < |counts| ==> counts[i] <= |cps|)
    && (forall i, j :: 0 <= i < j < |counts| ==> counts[i] <= counts[j])
  }

  /** What is held at each attempt, by the number of commits made. */
  function HeldAlong(cps: seq<Checkpoint>, counts: seq<nat>): (held: seq<Option<Checkpoint>>)
    requires forall i :: 0 <= i < |counts| ==> counts[i] <= |cps|
    ensures |held| == |counts|
    ensures forall i :: 0 <= i < |counts| ==> held[i] == Latest(cps, counts[i])
  {
    seq(|counts|, i requires 0 <= i < |counts| => Latest(cps, counts[i]))
  }

  // ── every download is a chain ────────────────────────────────────────────

  ghost predicate Carries(p: Progress, cps: seq<Checkpoint>, n: nat, c: Chain) {
    && ChainOk(cps, c) && c.i < n <= |cps| && p.seen == Some(cps[c.i].seqNo)
    && c.LastCut() <= |p.got| <= |Mix(cps, c)| && p.got == Mix(cps, c)[..|p.got|]
  }

  /** The bytes so far open the mix of a chain of at most `i` answers, none newer than the `n`-th commit. */
  ghost predicate Follows(p: Progress, cps: seq<Checkpoint>, n: nat, i: nat) {
    p.got == [] || exists c: Chain :: Carries(p, cps, n, c) && c.Length() <= i
  }

  /** A download that resumes inside a chain goes on with the checkpoint now held. */
  lemma Resumes(p: Progress, cps: seq<Checkpoint>, n0: nat, n: nat, c: Chain, size: nat)
    requires Carries(p, cps, n0, c) && n0 <= n <= |cps| && p.got != []
    requires cps[n - 1].seqNo == cps[c.i].seqNo && |p.got| < |cps[n - 1].bytes|
    ensures var more, body := Then(c, n - 1, |p.got|), cps[n - 1].bytes[|p.got|..];
      && ChainOk(cps, more) && Mix(cps, more) == p.got + body
      && Carries(Progress(p.got + Prefix(body, size), p.seen), cps, n, more)
  {
    var more, body := Then(c, n - 1, |p.got|), cps[n - 1].bytes[|p.got|..];
    assert Mix(cps, more) == p.got + body;
    PrefixOfConcat(p.got, body, size);
  }

  lemma PrefixOfConcat(a: Bytes, b: Bytes, size: nat)
    ensures |a + Prefix(b, size)| <= |a + b| && (a + b)[..|a + Prefix(b, size)|] == a + Prefix(b, size)
  {
  }

  lemma Starts(cps: seq<Checkpoint>, n: nat, size: nat)
    requires 0 < n <= |cps|
    ensures var cp := cps[n - 1];
      Carries(Progress([] + Prefix(cp.bytes, size), Some(cp.seqNo)), cps, n, First(n - 1))
  {
    PrefixOfConcat([], cps[n - 1].bytes, size);
    assert [] + cps[n - 1].bytes == cps[n - 1].bytes;
  }

  lemma AttemptFollows(p: Progress, cps: seq<Checkpoint>, n0: nat, n: nat, i: nat, link: Link)
    requires Follows(p, cps, n0, i) && n0 <= n <= |cps| && MixesStay(cps, i + 1)
    ensures match Attempt(p, Latest(cps, n), link)
            case Retry(next) => Follows(next, cps, n, i + 1)
            case Finished(result) =>
              result.Ok? ==> n > 0 && Checkpoint(cps[n - 1].seqNo, result.value) in cps
  {
    if link.SignedOut? || n == 0 {
    } else if link.SendFails? {
      if p.got != [] {
        var c: Chain :| Carries(p, cps, n0, c) && c.Length() <= i;
        assert Carries(p, cps, n, c);
      }
    } else {
      var size := if link.Cut? then link.bytes else 0;
      if p.got == [] {
        Starts(cps, n, size);
        assert First(n - 1).Length() <= i + 1;
        assert [] + cps[n - 1].bytes == cps[n - 1].bytes;
      } else {
        var c: Chain :| Carries(p, cps, n0, c) && c.Length() <= i;
        if cps[n - 1].seqNo == cps[c.i].seqNo && |p.got| < |cps[n - 1].bytes| {
          Resumes(p, cps, n0, n, c, size);
          var more := Then(c, n - 1, |p.got|);
          assert more.Length() <= i + 1;
          assert MixIn(cps, more);
        }
      }
    }
  }

  lemma {:induction false} FetchFollows(p: Progress, cps: seq<Checkpoint>, counts: seq<nat>, links: seq<Link>,
                                        n: nat, i: nat)
    requires |counts| == |links| && i <= |counts| && Forward(cps, counts) && MixesStay(cps, |counts|)
    requires Follows(p, cps, n, i) && (i < |counts| ==> n <= counts[i])
    ensures WholeResult(cps, HeldAlong(cps, counts), FetchFrom(p, HeldAlong(cps, counts), links, i))
    decreases |counts| - i
  {
    var held := HeldAlong(cps, counts);
    if i < |counts| {
      FewerStay(cps, i + 1, |counts|);
      AttemptFollows(p, cps, n, counts[i], i, links[i]);
      match Attempt(p, held[i], links[i]) {
        case Retry(next) => FetchFollows(next, cps, counts, links, counts[i], i + 1);
        case Finished(_) =>
      }
    }
  }

  lemma FewerStay(cps: seq<Checkpoint>, fewer: nat, attempts: nat)
    requires MixesStay(cps, attempts) && fewer <= attempts
    ensures MixesStay(cps, fewer)
  {
  }

  // ── every chain is a download ────────────────────────────────────────────

  function CountsOf(c: Chain): seq<nat> {
    match c
    case First(i) => [i + 1]
    case Then(before, i, _) => CountsOf(before) + [i + 1]
  }

  /** Links that cut the last answer so that `n` bytes are there in all. */
  function LinksCut(c: Chain, n: int): seq<Link> {
    match c
    case First(_) => [CutBy(n)]
    case Then(before, _, cut) => LinksCut(before, cut) + [CutBy(n - cut)]
  }

  function CutBy(n: int): Link {
    Cut(if n >= 0 then n else 0)
  }

  function LinksDone(c: Chain): seq<Link> {
    match c
    case First(_) => [Complete]
    case Then(before, _, cut) => LinksCut(before, cut) + [Complete]
  }

  lemma {:induction false} ChainShape(cps: seq<Checkpoint>, c: Chain, n: int)
    requires ChainOk(cps, c)
    ensures |CountsOf(c)| == |LinksCut(c, n)| == |LinksDone(c)| == c.Length() > 0
    ensures CountsOf(c)[c.Length() - 1] == c.i + 1 && c.i < |cps|
  {
    if c.Then? {
      ChainShape(cps, c.before, c.cut);
    }
  }

  /** Every checkpoint of a chain has the same seq and is not newer than its last. */
  lemma {:induction false} ChainBound(cps: seq<Checkpoint>, c: Chain, k: nat)
    requires ChainOk(cps, c) && k < |CountsOf(c)|
    ensures 0 < CountsOf(c)[k] <= c.i + 1 && c.i < |cps| && cps[CountsOf(c)[k] - 1].seqNo == cps[c.i].seqNo
  {
    if c.Then? && k < |CountsOf(c.before)| {
      ChainBound(cps, c.before, k);
    }
  }

  lemma {:induction false} ChainForward(cps: seq<Checkpoint>, c: Chain, j: nat, k: nat)
    requires ChainOk(cps, c) && j < k < |CountsOf(c)|
    ensures CountsOf(c)[j] <= CountsOf(c)[k]
  {
    if c.Then? {
      if k < |CountsOf(c.before)| {
        ChainForward(cps, c.before, j, k);
      } else {
        ChainBound(cps, c.before, j);
      }
    }
  }

  /** A run of attempts that begins as the chain says: these counts, these links. */
  ghost predicate Begins(counts: seq<nat>, links: seq<Link>, c: Chain, n: int) {
    CountsOf(c) <= counts && LinksCut(c, n) <= links && |counts| == |links|
  }

  lemma {:induction false} BeginsBefore(cps: seq<Checkpoint>, counts: seq<nat>, links: seq<Link>, c: Chain, n: int)
    requires ChainOk(cps, c) && c.Then? && Begins(counts, links, c, n)
    ensures Begins(counts, links, c.before, c.cut)
    ensures var m := c.before.Length(); m < |counts| && counts[m] == c.i + 1 && links[m] == CutBy(n - c.cut)
  {
    ChainShape(cps, c.before, c.cut);
    var m := c.before.Length();
    assert CountsOf(c)[..m] == CountsOf(c.before) && LinksCut(c, n)[..m] == LinksCut(c.before, c.cut);
    assert CountsOf(c)[m] == c.i + 1 && LinksCut(c, n)[m] == CutBy(n - c.cut);
  }

  /** One attempt of the chain: cut after `n` bytes in all. */
  lemma {:induction false} ChainAttempt(cps: seq<Checkpoint>, c: Chain, n: nat)
    requires ChainOk(cps, c) && c.Then? && c.cut <= n <= |Mix(cps, c)|
    ensures var q := cps[c.i].seqNo;
      Attempt(Progress(Mix(cps, c.before)[..c.cut], Some(q)), Some(cps[c.i]), CutBy(n - c.cut))
      == Retry(Progress(Mix(cps, c)[..n], Some(q)))
  {
    var got, b := Mix(cps, c.before)[..c.cut], cps[c.i].bytes;
    assert Serve(Some(cps[c.i]), |got|) == Response(206, Some(cps[c.i].seqNo), b[c.cut..]);
    assert got + Prefix(b[c.cut..], n - c.cut) == (got + b[c.cut..])[..n];
  }

  lemma FirstAttempt(cp: Checkpoint, n: nat)
    requires n <= |cp.bytes|
    ensures Attempt(Progress([], None), Some(cp), CutBy(n)) == Retry(Progress(cp.bytes[..n], Some(cp.seqNo)))
  {
    assert [] + cp.bytes[..n] == cp.bytes[..n];
  }

  /** After the attempts of a chain the download stands inside its mix. */
  lemma {:induction false} ChainRuns(cps: seq<Checkpoint>, counts: seq<nat>, links: seq<Link>, c: Chain, n: nat)
    requires ChainOk(cps, c) && Begins(counts, links, c, n) && c.LastCut() <= n <= |Mix(cps, c)|
    requires forall i :: 0 <= i < |counts| ==> counts[i] <= |cps|
    ensures c.Length() <= |counts| && c.i < |cps|
    ensures var held := HeldAlong(cps, counts);
      FetchFrom(Progress([], None), held, links, 0)
      == FetchFrom(Progress(Mix(cps, c)[..n], Some(cps[c.i].seqNo)), held, links, c.Length())
  {
    ChainShape(cps, c, n);
    var held := HeldAlong(cps, counts);
    match c {
      case First(i) =>
        assert counts[0] == CountsOf(c)[0] && links[0] == LinksCut(c, n)[0];
        FirstAttempt(cps[i], n);
        FetchRetries(Progress([], None), Progress(cps[i].bytes[..n], Some(cps[i].seqNo)), held, links, 0);
      case Then(before, i, cut) =>
        var q := Some(cps[i].seqNo);
        BeginsBefore(cps, counts, links, c, n);
        ChainRuns(cps, counts, links, before, cut);
        ChainAttempt(cps, c, n);
        FetchRetries(Progress(Mix(cps, before)[..cut], q), Progress(Mix(cps, c)[..n], q), held, links, before.Length());
    }
  }

  lemma FetchRetries(p: Progress, next: Progress, held: seq<Option<Checkpoint>>, links: seq<Link>, i: nat)
    requires |held| == |links| && i < |held| && Attempt(p, held[i], links[i]) == Retry(next)
    ensures FetchFrom(p, held, links, i) == FetchFrom(next, held, links, i + 1)
  {
  }

  lemma {:induction false} FetchEnds(p: Progress, r: Result<Bytes, FetchError>, held: seq<Option<Checkpoint>>,
                                     links: seq<Link>, i: nat)
    requires |held| == |links| && i < |held| && Attempt(p, held[i], links[i]) == Finished(r)
    ensures FetchFrom(p, held, links, i) == r
  {
  }

  /** And completing the last answer returns the mix. */
  lemma {:induction false} ChainReturns(cps: seq<Checkpoint>, counts: seq<nat>, links: seq<Link>, c: Chain)
    requires ChainOk(cps, c) && c.Then? && Begins(counts, links, c.before, c.cut)
    requires forall i :: 0 <= i < |counts| ==> counts[i] <= |cps|
    requires var m := c.before.Length(); m < |counts| && counts[m] == c.i + 1 && links[m] == Complete
    ensures FetchFrom(Progress([], None), HeldAlong(cps, counts), links, 0) == Ok(Mix(cps, c))
  {
    var held, m := HeldAlong(cps, counts), c.before.Length();
    var p := Progress(Mix(cps, c.before)[..c.cut], Some(cps[c.i].seqNo));
    assert FetchFrom(Progress([], None), held, links, 0) == FetchFrom(p, held, links, m) by {
      ChainRuns(cps, counts, links, c.before, c.cut);
    }
    assert Attempt(p, held[m], links[m]) == Finished(Ok(Mix(cps, c))) by {
      LastAttempt(cps, c);
    }
    FetchEnds(p, Ok(Mix(cps, c)), held, links, m);
  }

  lemma {:induction false} LastAttempt(cps: seq<Checkpoint>, c: Chain)
    requires ChainOk(cps, c) && c.Then?
    ensures Attempt(Progress(Mix(cps, c.before)[..c.cut], Some(cps[c.i].seqNo)), Some(cps[c.i]), Complete)
         == Finished(Ok(Mix(cps, c)))
  {
    var got, b := Mix(cps, c.before)[..c.cut], cps[c.i].bytes;
    assert Serve(Some(cps[c.i]), |got|) == Response(206, Some(cps[c.i].seqNo), b[c.cut..]);
  }

  /** The counts and links of a download that follows the chain, completes it and has attempts to spare. */
  function Padded(c: Chain, rest: nat): seq<nat> {
    CountsOf(c) + seq(rest, _ => c.i + 1)
  }

  function PaddedLinks(c: Chain, rest: nat): seq<Link> {
    LinksDone(c) + seq(rest, _ => SendFails)
  }

  lemma {:induction false} PaddedBegins(cps: seq<Checkpoint>, c: Chain, rest: nat)
    requires ChainOk(cps, c) && c.Then?
    ensures var counts, links, m := Padded(c, rest), PaddedLinks(c, rest), c.before.Length();
      && |counts| == |links| == c.Length() + rest && Begins(counts, links, c.before, c.cut)
      && m < |counts| && counts[m] == c.i + 1 && links[m] == Complete
  {
    ChainShape(cps, c, 0);
    ChainShape(cps, c.before, c.cut);
    PrefixChain(CountsOf(c.before), [c.i + 1], seq(rest, _ => c.i + 1));
    PrefixChain(LinksCut(c.before, c.cut), [Complete], seq(rest, _ => SendFails));
  }

  lemma PrefixChain<T>(a: seq<T>, b: seq<T>, c: seq<T>)
    requires |b| == 1
    ensures a <= a + b + c && (a + b + c)[|a|] == b[0]
  {
  }

  lemma {:induction false} PaddedBound(cps: seq<Checkpoint>, c: Chain, rest: nat, k: nat)
    requires ChainOk(cps, c) && k < |Padded(c, rest)|
    ensures var n := Padded(c, rest)[k];
      0 < n <= c.i + 1 && c.i < |cps| && cps[n - 1].seqNo == cps[c.i].seqNo
  {
    PaddedAt(c, rest, k);
    if k < |CountsOf(c)| {
      ChainBound(cps, c, k);
    } else {
      ChainShape(cps, c, 0);
    }
  }

  lemma {:induction false} PaddedAt(c: Chain, rest: nat, k: nat)
    requires k < |Padded(c, rest)|
    ensures Padded(c, rest)[k] == if k < |CountsOf(c)| then CountsOf(c)[k] else c.i + 1
  {
  }

  lemma {:induction false} PaddedForward(cps: seq<Checkpoint>, c: Chain, rest: nat)
    requires ChainOk(cps, c)
    ensures Forward(cps, Padded(c, rest))
  {
    var counts := Padded(c, rest);
    forall k | 0 <= k < |counts| ensures counts[k] <= |cps| {
      PaddedBound(cps, c, rest, k);
    }
    forall j, k | 0 <= j < k < |counts| ensures counts[j] <= counts[k] {
      PaddedBound(cps, c, rest, j);
      if k < |CountsOf(c)| {
        ChainForward(cps, c, j, k);
      }
    }
  }

  lemma BadMix(cps: seq<Checkpoint>, attempts: nat, c: Chain) returns (counts: seq<nat>, links: seq<Link>)
    requires ChainOk(cps, c) && c.Length() <= attempts && !MixIn(cps, c)
    ensures |counts| == |links| == attempts && Forward(cps, counts)
    ensures !WholeResult(cps, HeldAlong(cps, counts), FetchFrom(Progress([], None), HeldAlong(cps, counts), links, 0))
  {
    var rest := attempts - c.Length();
    counts, links := Padded(c, rest), PaddedLinks(c, rest);
    PaddedBegins(cps, c, rest);
    PaddedForward(cps, c, rest);
    ChainReturns(cps, counts, links, c);
    forall k | 0 <= k < |counts| ensures HeldAlong(cps, counts)[k].Some?
      ensures HeldAlong(cps, counts)[k].value.seqNo == cps[c.i].seqNo
    {
      PaddedBound(cps, c, rest, k);
    }
  }

  /** Every completed download, over all cuts and all forward moves of the server along these commits, is
      one of them, if and only if every mix of a chain of at most so many answers is. */
  lemma ChainsExactly(cps: seq<Checkpoint>, attempts: nat)
    ensures MixesStay(cps, attempts) <==>
      forall counts, links :: |counts| == |links| == attempts && Forward(cps, counts) ==>
        WholeResult(cps, HeldAlong(cps, counts), FetchFrom(Progress([], None), HeldAlong(cps, counts), links, 0))
  {
    if MixesStay(cps, attempts) {
      forall counts, links | |counts| == |links| == attempts && Forward(cps, counts)
        ensures WholeResult(cps, HeldAlong(cps, counts), FetchFrom(Progress([], None), HeldAlong(cps, counts), links, 0))
      {
        FetchFollows(Progress([], None), cps, counts, links, 0, 0);
      }
    } else {
      var c: Chain :| ChainOk(cps, c) && c.Length() <= attempts && !MixIn(cps, c);
      var counts, links := BadMix(cps, attempts, c);
    }
  }

  // ── a room ───────────────────────────────────────────────────────────────

  /** The checkpoint a room holds after the first `n` of its events. */
  function RoomHolds(events: seq<LogEvent>, n: nat): Option<Checkpoint>
    requires n <= |events|
  {
    Latest(CommitsOf(events[..n]), |CommitsOf(events[..n])|)
  }

  /** Moments of a run, one per attempt. */
  ghost predicate Moments(events: seq<LogEvent>, at: seq<nat>) {
    && (forall i :: 0 <= i < |at| ==> at[i] <= |events|)
    && (forall i, j :: 0 <= i < j < |at| ==> at[i] <= at[j])
  }

  function HeldWhen(events: seq<LogEvent>, at: seq<nat>): (held: seq<Option<Checkpoint>>)
    requires forall i :: 0 <= i < |at| ==> at[i] <= |events|
    ensures |held| == |at| && forall i :: 0 <= i < |at| ==> held[i] == RoomHolds(events, at[i])
  {
    seq(|at|, i requires 0 <= i < |at| => RoomHolds(events, at[i]))
  }

  lemma {:induction false} CommitsPrefix(events: seq<LogEvent>, n: nat)
    requires n <= |events|
    ensures CommitsOf(events[..n]) <= CommitsOf(events)
  {
    if n == |events| {
      assert events[..n] == events;
    } else {
      var init := events[..|events| - 1];
      assert init[..n] == events[..n];
      CommitsPrefix(init, n);
      CommitsStep(events);
    }
  }

  lemma CommitsGrow(events: seq<LogEvent>, m: nat, n: nat)
    requires m <= n <= |events|
    ensures |CommitsOf(events[..m])| <= |CommitsOf(events[..n])|
  {
    assert events[..n][..m] == events[..m];
    CommitsPrefix(events[..n], m);
  }

  /** The first moment at which `count` commits are made. */
  function Moment(events: seq<LogEvent>, count: nat): (n: nat)
    requires count <= |CommitsOf(events)|
    ensures n <= |events|
  {
    if events == [] || count > |CommitsOf(events[..|events| - 1])| then |events| else Moment(events[..|events| - 1], count)
  }

  lemma {:induction false} MomentExact(events: seq<LogEvent>, count: nat)
    requires count <= |CommitsOf(events)|
    ensures |CommitsOf(events[..Moment(events, count)])| == count
  {
    assert events[..|events|] == events;
    if events != [] {
      var init := events[..|events| - 1];
      CommitsStep(events);
      if count <= |CommitsOf(init)| {
        MomentExact(init, count);
        assert init[..Moment(init, count)] == events[..Moment(init, count)];
      }
    }
  }

  lemma {:induction false} MomentFirst(events: seq<LogEvent>, count: nat, n: nat)
    requires count <= |CommitsOf(events)| && n < Moment(events, count)
    ensures |CommitsOf(events[..n])| < count
  {
    var init := events[..|events| - 1];
    assert init[..n] == events[..n];
    if count > |CommitsOf(init)| {
      CommitsPrefix(init, n);
    } else {
      MomentFirst(init, count, n);
    }
  }

  lemma {:induction false} HoldsIsLatest(events: seq<LogEvent>, n: nat)
    requires n <= |events|
    ensures |CommitsOf(events[..n])| <= |CommitsOf(events)|
    ensures RoomHolds(events, n) == Latest(CommitsOf(events), |CommitsOf(events[..n])|)
  {
    CommitsPrefix(events, n);
  }

  /** Moments of the run give forward counts and the same checkpoints. */
  lemma CountsAt(events: seq<LogEvent>, at: seq<nat>) returns (counts: seq<nat>)
    requires Moments(events, at)
    ensures |counts| == |at| && Forward(CommitsOf(events), counts)
    ensures HeldWhen(events, at) == HeldAlong(CommitsOf(events), counts)
  {
    counts := seq(|at|, i requires 0 <= i < |at| => |CommitsOf(events[..at[i]])|);
    forall i | 0 <= i < |at|
      ensures counts[i] <= |CommitsOf(events)| && RoomHolds(events, at[i]) == Latest(CommitsOf(events), counts[i])
    {
      HoldsIsLatest(events, at[i]);
    }
    forall i, j | 0 <= i < j < |at| ensures counts[i] <= counts[j] {
      CommitsGrow(events, at[i], at[j]);
    }
  }

  /** And every forward sequence of counts has its moments. */
  lemma MomentsFor(events: seq<LogEvent>, counts: seq<nat>) returns (at: seq<nat>)
    requires Forward(CommitsOf(events), counts)
    ensures |at| == |counts| && Moments(events, at)
    ensures HeldWhen(events, at) == HeldAlong(CommitsOf(events), counts)
  {
    at := seq(|counts|, i requires 0 <= i < |counts| => Moment(events, counts[i]));
    forall i | 0 <= i < |counts|
      ensures at[i] <= |events| && RoomHolds(events, at[i]) == Latest(CommitsOf(events), counts[i])
    {
      MomentExact(events, counts[i]);
      HoldsIsLatest(events, at[i]);
    }
    forall i, j | 0 <= i < j < |counts| ensures at[i] <= at[j] {
      MomentExact(events, counts[j]);
      if at[j] < at[i] {
        MomentFirst(events, counts[i], at[j]);
      }
    }
  }

  /** For a room: no download, made at any moments of its run and cut anywhere, returns anything but a
      committed checkpoint of a seq it held, if and only if every mix along its commits is committed. */
  lemma {:induction false} RoomSplicesExactly(events: seq<LogEvent>)
    ensures MixesStay(CommitsOf(events), ATTEMPTS) <==>
      forall at, links :: |at| == |links| == ATTEMPTS && Moments(events, at) ==>
        WholeResult(CommitsOf(events), HeldWhen(events, at),
                    FetchFrom(Progress([], None), HeldWhen(events, at), links, 0))
  {
    var cps := CommitsOf(events);
    ChainsExactly(cps, ATTEMPTS);
    if MixesStay(cps, ATTEMPTS) {
      forall at, links | |at| == |links| == ATTEMPTS && Moments(events, at)
        ensures WholeResult(cps, HeldWhen(events, at), FetchFrom(Progress([], None), HeldWhen(events, at), links, 0))
      {
        var counts := CountsAt(events, at);
      }
    } else {
      var c: Chain :| ChainOk(cps, c) && c.Length() <= ATTEMPTS && !MixIn(cps, c);
      var counts, links := BadMix(cps, ATTEMPTS, c);
      var at := MomentsFor(events, counts);
    }
  }

  // ── how the two conditions compare ───────────────────────────────────────

  /** A closed set of checkpoints has only mixes that stay, in any number of attempts. */
  lemma {:induction false} ClosedMixes(cps: seq<Checkpoint>, c: Chain)
    requires SplicesStay(cps) && ChainOk(cps, c)
    ensures MixIn(cps, c)
  {
    if c.Then? {
      ClosedMixes(cps, c.before);
      var a := Checkpoint(cps[c.before.i].seqNo, Mix(cps, c.before));
      assert Spliced(a, cps[c.i], c.cut) in cps;
    } else {
      assert cps[c.i] == Checkpoint(cps[c.i].seqNo, cps[c.i].bytes);
    }
  }

  lemma ClosedStay(cps: seq<Checkpoint>, attempts: nat)
    requires SplicesStay(cps)
    ensures MixesStay(cps, attempts)
  {
    forall c: Chain | ChainOk(cps, c) && c.Length() <= attempts ensures MixIn(cps, c) {
      ClosedMixes(cps, c);
    }
  }

  /** But not the other way round: committed in this order the two never mix, and together they are not closed. */
  lemma OrderMatters(attempts: nat)
    ensures var cps := [Checkpoint(0, [1, 1, 1]), Checkpoint(0, [1, 2])];
      && CommitsOf([Commit(0, [1, 1, 1]), Commit(0, [1, 2])]) == cps
      && MixesStay(cps, attempts) && !SplicesStay(cps)
  {
    var a, b := Checkpoint(0, [1, 1, 1]), Checkpoint(0, [1, 2]);
    var cps := [a, b];
    TwoCommits(a.bytes, b.bytes);
    forall c: Chain | ChainOk(cps, c) && c.Length() <= attempts ensures MixIn(cps, c) {
      NeverMixes(c);
    }
    assert Spliced(b, a, 1) == Checkpoint(0, [1, 1, 1]) && Spliced(b, a, 2) == Checkpoint(0, [1, 2, 1]);
  }

  lemma {:induction false} NeverMixes(c: Chain)
    requires ChainOk([Checkpoint(0, [1, 1, 1]), Checkpoint(0, [1, 2])], c)
    ensures var cps := [Checkpoint(0, [1, 1, 1]), Checkpoint(0, [1, 2])]; c.i < 2 && Mix(cps, c) == cps[c.i].bytes
  {
    var cps := [Checkpoint(0, [1, 1, 1]), Checkpoint(0, [1, 2])];
    if c.Then? {
      NeverMixes(c.before);
      if c.before.i != c.i {
        assert c.cut == 1 && [1, 1, 1][..1] == [1] && [1, 2][..1] == [1];
      }
      assert Mix(cps, c.before)[..c.cut] == cps[c.i].bytes[..c.cut];
    }
  }

  lemma TwoCommits(a: Bytes, b: Bytes)
    requires a != [] && b != []
    ensures CommitsOf([Commit(0, a), Commit(0, b)]) == [Checkpoint(0, a), Checkpoint(0, b)]
  {
    var e1, e2 := Commit(0, a), Commit(0, b);
    assert [e1, e2][..1] == [e1] && [e1][..0] == [];
    assert LogRun([]).0 == EMPTY_LOG && LogRun([e1]).0 == CommitCheckpoint(EMPTY_LOG, 0, a).0;
    assert CommitsOf([]) == [];
    assert CommitsOf([e1]) == [Checkpoint(0, a)];
  }
}
