/**
 Draining the durable command ledger (crates/doc/src/commands.rs and `drain_commands` in
 crates/engine/src/doc_host.rs): evaluate the first pending entry, mark it processed, then act.
 */
module CommandDrain {
  import opened Common

  datatype Kind = Run | Steer | Interrupt | RespondInput

  datatype Status = Pending | Applied | Rejected | Expired | Superseded | Cancelled

  datatype Command = Command(id: string, kind: Kind, issuedAt: int, turnId: Option<string>,
                             expiresAt: Option<int>, status: Status)

  datatype Disposition = Skip | Expire | Supersede | Execute

  const DEFAULT_TTL_MS: int := 24 * 60 * 60 * 1000

  function EffectiveExpiry(c: Command): int {
    if c.expiresAt.Some? then c.expiresAt.value else c.issuedAt + DEFAULT_TTL_MS
  }

  /** What the host sees when it looks at an entry: the clock and the transcript's turns, and how
      executing the command would end. */
  datatype Env = Env(now: int, currentTurn: Option<string>, turns: set<string>, applied: bool)

  predicate Newer(other: Command, c: Command) {
    other.id != c.id && other.kind == c.kind && other.status == Pending && other.issuedAt > c.issuedAt
  }

  /** An interrupt aimed at a turn that already finished. */
  predicate Moot(c: Command, env: Env) {
    c.kind == Interrupt && c.turnId.Some? && env.currentTurn != c.turnId && c.turnId.value in env.turns
  }

  predicate Replaceable(c: Command) {
    c.kind == Steer || c.kind == Interrupt
  }

  function AnyNewer(entries: seq<Command>, c: Command): bool {
    entries != [] && (Newer(entries[0], c) || AnyNewer(entries[1..], c))
  }

  lemma {:induction false} AnyNewerMeans(entries: seq<Command>, c: Command)
    ensures AnyNewer(entries, c) <==> exists k :: 0 <= k < |entries| && Newer(entries[k], c)
  {
    if entries != [] {
      var rest := entries[1..];
      AnyNewerMeans(rest, c);
      if AnyNewer(rest, c) {
        var k :| 0 <= k < |rest| && Newer(rest[k], c);
        assert Newer(entries[k + 1], c);
      }
      forall k | 0 < k < |entries| && Newer(entries[k], c) ensures AnyNewer(rest, c) {
        assert rest[k - 1] == entries[k];
      }
    }
  }

  function Evaluate(c: Command, processed: set<string>, entries: seq<Command>, env: Env): Disposition {
    if c.id in processed then Skip
    else if env.now >= EffectiveExpiry(c) then Expire
    else if Replaceable(c) && AnyNewer(entries, c) then Supersede
    else if Moot(c, env) then Supersede
    else Execute
  }

  ghost predicate DistinctIds(cs: seq<Command>) {
    forall i, j :: 0 <= i < j < |cs| ==> cs[i].id != cs[j].id
  }

  // ── one pass over a frozen list, stated without the loop ─────────────────

  predicate Todo(cs: seq<Command>, processed: set<string>, i: nat)
    requires i < |cs|
  {
    cs[i].status == Pending && cs[i].id !in processed
  }

  /** Newer entries that still count when entry `i` is reached: those listed later, and those the
      ledger already holds, which stay pending for ever. */
  predicate Overtaken(cs: seq<Command>, processed: set<string>, i: nat)
    requires i < |cs|
  {
    exists j :: 0 <= j < |cs| && Newer(cs[j], cs[i]) && (j > i || cs[j].id in processed)
  }

  function Verdict(cs: seq<Command>, processed: set<string>, i: nat, env: Env): Disposition
    requires i < |cs|
  {
    if env.now >= EffectiveExpiry(cs[i]) then Expire
    else if Replaceable(cs[i]) && Overtaken(cs, processed, i) then Supersede
    else if Moot(cs[i], env) then Supersede
    else Execute
  }

  function Outcome(d: Disposition, env: Env): Status {
    match d
    case Skip => Pending
    case Expire => Expired
    case Supersede => Superseded
    case Execute => if env.applied then Applied else Rejected
  }

  function Resolved(cs: seq<Command>, processed: set<string>, i: nat, env: Env): Command
    requires i < |cs|
  {
    if Todo(cs, processed, i) then cs[i].(status := Outcome(Verdict(cs, processed, i, env), env)) else cs[i]
  }

  function ResolvedUpTo(cs: seq<Command>, processed: set<string>, envs: nat -> Env, n: nat): (r: seq<Command>)
    requires n <= |cs|
    ensures |r| == n
  {
    if n == 0 then []
    else ResolvedUpTo(cs, processed, envs, n - 1) + [Resolved(cs, processed, n - 1, envs(n - 1))]
  }

  lemma {:induction false} ResolvedAt(cs: seq<Command>, processed: set<string>, envs: nat -> Env, n: nat, i: nat)
    requires i < n <= |cs|
    ensures ResolvedUpTo(cs, processed, envs, n)[i] == Resolved(cs, processed, i, envs(i))
  {
    if i < n - 1 {
      ResolvedAt(cs, processed, envs, n - 1, i);
    }
  }

  /** Ids executed among the first `n` entries, in document order. */
  function ExecutedUpTo(cs: seq<Command>, processed: set<string>, envs: nat -> Env, n: nat): seq<string>
    requires n <= |cs|
  {
    if n == 0 then []
    else
      ExecutedUpTo(cs, processed, envs, n - 1)
      + if Todo(cs, processed, n - 1) && Verdict(cs, processed, n - 1, envs(n - 1)).Execute? then [cs[n - 1].id] else []
  }

  function TodoIds(cs: seq<Command>, processed: set<string>, n: nat): set<string>
    requires n <= |cs|
  {
    if n == 0 then {}
    else TodoIds(cs, processed, n - 1) + if Todo(cs, processed, n - 1) then {cs[n - 1].id} else {}
  }

  lemma {:induction false} TodoIdsMembers(cs: seq<Command>, processed: set<string>, n: nat)
    requires n <= |cs|
    ensures forall x :: x in TodoIds(cs, processed, n) <==>
      exists k :: 0 <= k < n && cs[k].id == x && Todo(cs, processed, k)
  {
    if n > 0 {
      TodoIdsMembers(cs, processed, n - 1);
    }
  }

  /** The host of one chat: the command list in its document, the durable ledger, and what it ran. */
  class Host {
    var commands: seq<Command>
    var processed: set<string>
    var executed: seq<string>

    constructor (commands: seq<Command>, processed: set<string>)
      ensures this.commands == commands && this.processed == processed && executed == []
    {
      this.commands, this.processed, executed := commands, processed, [];
    }

    method FindPending() returns (at: nat)
      ensures at <= |commands|
      ensures at < |commands| ==> Todo(commands, processed, at)
      ensures forall k :: 0 <= k < at ==> !Todo(commands, processed, k)
    {
      at := 0;
      while at < |commands| && !Todo(commands, processed, at)
        invariant 0 <= at <= |commands|
        invariant forall k :: 0 <= k < at ==> !Todo(commands, processed, k)
      {
        at := at + 1;
      }
    }

    /** One turn of the loop: the ledger is written before anything is run. The ghost arguments say
        how far the pass over the list `cs` has come. */
    method HandleNext(envs: nat -> Env, ghost cs: seq<Command>, ghost seen: set<string>, ghost ran: seq<string>,
                      ghost done: nat) returns (more: bool, ghost next: nat)
      requires DistinctIds(cs) && Midway(cs, seen, commands, processed, envs, done)
      requires executed == ran + ExecutedUpTo(cs, seen, envs, done)
      modifies this
      ensures Midway(cs, seen, commands, processed, envs, next)
      ensures executed == ran + ExecutedUpTo(cs, seen, envs, next)
      ensures if more then done < next else next == |cs|
    {
      var at := FindPending();
      Turn(cs, seen, commands, processed, envs, done, at);
      next := at;
      more := at < |commands|;
      if more {
        var entry := commands[at];
        var d := Evaluate(entry, processed, commands, envs(at));
        processed := processed + {entry.id};
        if d.Execute? {
          executed := executed + [entry.id];
        }
        commands := commands[at := entry.(status := Outcome(d, envs(at)))];
        next := at + 1;
      }
    }

    /** `envs(i)` is what the host sees when it handles entry `i`. Nobody else edits the list. */
    method Drain(envs: nat -> Env)
      requires DistinctIds(commands)
      modifies this
      ensures commands == ResolvedUpTo(old(commands), old(processed), envs, |old(commands)|)
      ensures processed == old(processed) + TodoIds(old(commands), old(processed), |old(commands)|)
      ensures executed == old(executed) + ExecutedUpTo(old(commands), old(processed), envs, |old(commands)|)
    {
      ghost var cs, seen, ran, done := commands, processed, executed, 0;
      var more := true;
      while more
        invariant Midway(cs, seen, commands, processed, envs, done)
        invariant executed == ran + ExecutedUpTo(cs, seen, envs, done)
        invariant !more ==> done == |cs|
        decreases |cs| - done, more
      {
        more, done := HandleNext(envs, cs, seen, ran, done);
      }
    }
  }

  /** The state of a pass that has handled the first `done` entries. */
  ghost predicate Midway(cs: seq<Command>, seen: set<string>, cur: seq<Command>, processed: set<string>,
                         envs: nat -> Env, done: nat)
  {
    && done <= |cs| == |cur|
    && cur == ResolvedUpTo(cs, seen, envs, done) + cs[done..]
    && processed == seen + TodoIds(cs, seen, done)
  }

  /** A handled entry is not found again. */
  lemma HandledIsDone(cs: seq<Command>, seen: set<string>, cur: seq<Command>, processed: set<string>,
                      envs: nat -> Env, done: nat, at: nat)
    requires Midway(cs, seen, cur, processed, envs, done) && at < done
    ensures !Todo(cur, processed, at)
  {
    TodoIdsMembers(cs, seen, done);
    ResolvedAt(cs, seen, envs, done, at);
    assert cur[at] == Resolved(cs, seen, at, envs(at));
  }

  lemma SkipOne(cs: seq<Command>, seen: set<string>, cur: seq<Command>, processed: set<string>,
                envs: nat -> Env, k: nat)
    requires DistinctIds(cs) && Midway(cs, seen, cur, processed, envs, k)
    requires k < |cur| && !Todo(cur, processed, k)
    ensures !Todo(cs, seen, k) && Midway(cs, seen, cur, processed, envs, k + 1)
    ensures ExecutedUpTo(cs, seen, envs, k + 1) == ExecutedUpTo(cs, seen, envs, k)
  {
    assert !Todo(cs, seen, k) by {
      TodoIdsMembers(cs, seen, k);
    }
    assert TodoIds(cs, seen, k + 1) == TodoIds(cs, seen, k);
  }

  /** Entries between the last handled one and the next pending one were not to be handled at all. */
  lemma {:induction false} SkipHandled(cs: seq<Command>, seen: set<string>, cur: seq<Command>,
                                       processed: set<string>, envs: nat -> Env, done: nat, at: nat)
    requires DistinctIds(cs) && Midway(cs, seen, cur, processed, envs, done)
    requires at <= |cur| && (at < |cur| ==> Todo(cur, processed, at))
    requires forall k :: 0 <= k < at ==> !Todo(cur, processed, k)
    ensures done <= at && Midway(cs, seen, cur, processed, envs, at)
    ensures ExecutedUpTo(cs, seen, envs, at) == ExecutedUpTo(cs, seen, envs, done)
    decreases at - done
  {
    if at < done {
      HandledIsDone(cs, seen, cur, processed, envs, done, at);
    } else if done < at {
      SkipOne(cs, seen, cur, processed, envs, done);
      SkipHandled(cs, seen, cur, processed, envs, done + 1, at);
    }
  }

  /** Handling the entry found brings the pass one entry further. */
  lemma MidwayStep(cs: seq<Command>, seen: set<string>, cur: seq<Command>, processed: set<string>,
                   envs: nat -> Env, at: nat)
    requires DistinctIds(cs) && Midway(cs, seen, cur, processed, envs, at)
    requires at < |cur| && Todo(cur, processed, at)
    ensures var d := Evaluate(cur[at], processed, cur, envs(at));
      && Midway(cs, seen, cur[at := cur[at].(status := Outcome(d, envs(at)))], processed + {cur[at].id}, envs, at + 1)
      && ExecutedUpTo(cs, seen, envs, at + 1)
         == ExecutedUpTo(cs, seen, envs, at) + if d.Execute? then [cur[at].id] else []
  {
    assert Todo(cs, seen, at);
    EvaluateIsVerdict(cs, seen, cur, processed, envs, at);
    assert TodoIds(cs, seen, at + 1) == TodoIds(cs, seen, at) + {cur[at].id};
  }

  lemma Turn(cs: seq<Command>, seen: set<string>, cur: seq<Command>, processed: set<string>,
             envs: nat -> Env, done: nat, at: nat)
    requires DistinctIds(cs) && Midway(cs, seen, cur, processed, envs, done)
    requires at <= |cur| && (at < |cur| ==> Todo(cur, processed, at))
    requires forall k :: 0 <= k < at ==> !Todo(cur, processed, k)
    ensures done <= at
    ensures at == |cur| ==>
      && Midway(cs, seen, cur, processed, envs, at)
      && ExecutedUpTo(cs, seen, envs, at) == ExecutedUpTo(cs, seen, envs, done)
    ensures at < |cur| ==> var d := Evaluate(cur[at], processed, cur, envs(at));
      && Midway(cs, seen, cur[at := cur[at].(status := Outcome(d, envs(at)))], processed + {cur[at].id}, envs, at + 1)
      && ExecutedUpTo(cs, seen, envs, at + 1)
         == ExecutedUpTo(cs, seen, envs, done) + if d.Execute? then [cur[at].id] else []
  {
    SkipHandled(cs, seen, cur, processed, envs, done, at);
    if at < |cur| {
      MidwayStep(cs, seen, cur, processed, envs, at);
    }
  }

  /** What the halfway list still shows of entry `j` when entry `at` is reached. */
  lemma NewerMidway(cs: seq<Command>, seen: set<string>, cur: seq<Command>, processed: set<string>,
                    envs: nat -> Env, at: nat, j: nat)
    requires Midway(cs, seen, cur, processed, envs, at) && at < |cs| && j < |cs|
    ensures cur[at] == cs[at]
    ensures Newer(cur[j], cs[at]) <==> Newer(cs[j], cs[at]) && (j >= at || cs[j].id in seen)
  {
    if j < at {
      ResolvedAt(cs, seen, envs, at, j);
      assert cur[j] == Resolved(cs, seen, j, envs(j));
    } else {
      assert cur[j] == cs[j];
    }
  }

  lemma {:induction false} AnyNewerIsOvertaken(cs: seq<Command>, seen: set<string>, cur: seq<Command>,
                                               processed: set<string>,
                                               envs: nat -> Env, at: nat)
    requires Midway(cs, seen, cur, processed, envs, at) && at < |cs|
    ensures AnyNewer(cur, cs[at]) <==> Overtaken(cs, seen, at)
  {
    AnyNewerMeans(cur, cs[at]);
    if AnyNewer(cur, cs[at]) {
      var k :| 0 <= k < |cur| && Newer(cur[k], cs[at]);
      NewerMidway(cs, seen, cur, processed, envs, at, k);
    }
    if Overtaken(cs, seen, at) {
      var j :| 0 <= j < |cs| && Newer(cs[j], cs[at]) && (j > at || cs[j].id in seen);
      NewerMidway(cs, seen, cur, processed, envs, at, j);
    }
  }

  lemma EvaluateIsVerdict(cs: seq<Command>, seen: set<string>, cur: seq<Command>, processed: set<string>,
                          envs: nat -> Env, at: nat)
    requires Midway(cs, seen, cur, processed, envs, at)
    requires at < |cur| && Todo(cur, processed, at)
    ensures Evaluate(cur[at], processed, cur, envs(at)) == Verdict(cs, seen, at, envs(at))
  {
    AnyNewerIsOvertaken(cs, seen, cur, processed, envs, at);
    NewerMidway(cs, seen, cur, processed, envs, at, at);
  }

  // ── what a finished pass leaves ──────────────────────────────────────────

  lemma {:induction false} ExecutedMembers(cs: seq<Command>, processed: set<string>, envs: nat -> Env, n: nat,
                                           id: string)
    requires n <= |cs|
    ensures id in ExecutedUpTo(cs, processed, envs, n) <==>
      exists k :: 0 <= k < n && cs[k].id == id && Todo(cs, processed, k) && Verdict(cs, processed, k, envs(k)).Execute?
  {
    if n > 0 {
      ExecutedMembers(cs, processed, envs, n - 1, id);
    }
  }

  lemma {:induction false} ExecutedOnce(cs: seq<Command>, processed: set<string>, envs: nat -> Env, n: nat)
    requires n <= |cs| && DistinctIds(cs)
    ensures var ran := ExecutedUpTo(cs, processed, envs, n); forall i, j :: 0 <= i < j < |ran| ==> ran[i] != ran[j]
  {
    if n > 0 {
      ExecutedOnce(cs, processed, envs, n - 1);
      ExecutedMembers(cs, processed, envs, n - 1, cs[n - 1].id);
    }
  }

  /** After a pass over a frozen list entry `i` is no longer to be handled: it was resolved, or it was
      already resolved or in the ledger and is as it was. A command ends Applied or Rejected exactly
      when it ran. */
  lemma {:induction false} DrainResolves(cs: seq<Command>, processed: set<string>, envs: nat -> Env, i: nat)
    requires DistinctIds(cs) && i < |cs|
    ensures var end := ResolvedUpTo(cs, processed, envs, |cs|)[i];
      && (Todo(cs, processed, i) ==> end.status != Pending && end == cs[i].(status := end.status))
      && (!Todo(cs, processed, i) ==> end == cs[i])
      && (end.id in processed + TodoIds(cs, processed, |cs|) || end.status != Pending)
      && (end.id in ExecutedUpTo(cs, processed, envs, |cs|) <==>
          Todo(cs, processed, i) && (end.status == Applied || end.status == Rejected))
  {
    ResolvedAt(cs, processed, envs, |cs|, i);
    TodoIdsMembers(cs, processed, |cs|);
    ExecutedMembers(cs, processed, envs, |cs|, cs[i].id);
  }

  // ── steers ───────────────────────────────────────────────────────────────

  ghost predicate ExecutesSteer(cs: seq<Command>, processed: set<string>, envs: nat -> Env, i: nat) {
    i < |cs| && cs[i].kind == Steer && Todo(cs, processed, i) && Verdict(cs, processed, i, envs(i)).Execute?
  }

  /** A pending steer listed before `i`, still to be handled, and issued later. */
  ghost predicate EarlierButNewer(cs: seq<Command>, processed: set<string>, i: nat) {
    i < |cs| && exists j :: 0 <= j < i && Newer(cs[j], cs[i]) && cs[j].id !in processed
  }

  ghost predicate GreatestSteer(cs: seq<Command>, i: nat)
    requires i < |cs|
  {
    forall j :: 0 <= j < |cs| && cs[j].kind == Steer && cs[j].status == Pending ==> cs[j].issuedAt <= cs[i].issuedAt
  }

  /** Why a pending steer that stands behind a newer one is not executed all the same: it has expired
      when its turn comes, or one newer still is listed later or already in the ledger. */
  ghost predicate Excused(cs: seq<Command>, processed: set<string>, envs: nat -> Env, i: nat)
    requires i < |cs|
  {
    envs(i).now >= EffectiveExpiry(cs[i]) || Overtaken(cs, processed, i)
  }

  /** Only steers with the greatest issue time among the pending steers execute, if and only if every
      steer to be handled that stands behind a newer one is excused. */
  lemma OnlyGreatestSteers(cs: seq<Command>, processed: set<string>, envs: nat -> Env)
    requires DistinctIds(cs)
    ensures (forall i: nat :: ExecutesSteer(cs, processed, envs, i) ==> GreatestSteer(cs, i)) <==>
            (forall i: nat :: i < |cs| && cs[i].kind == Steer && Todo(cs, processed, i) && EarlierButNewer(cs, processed, i)
               ==> Excused(cs, processed, envs, i))
  {
    forall i: nat | i < |cs| && cs[i].kind == Steer && Todo(cs, processed, i)
      ensures ExecutesSteer(cs, processed, envs, i) <==> !Excused(cs, processed, envs, i)
      ensures !Excused(cs, processed, envs, i) ==>
        (GreatestSteer(cs, i) <==> !EarlierButNewer(cs, processed, i))
    {
      if !Excused(cs, processed, envs, i) {
        UnexcusedGreatest(cs, processed, i);
      }
    }
  }

  lemma UnexcusedGreatest(cs: seq<Command>, processed: set<string>, i: nat)
    requires DistinctIds(cs) && i < |cs| && cs[i].kind == Steer && !Overtaken(cs, processed, i)
    ensures GreatestSteer(cs, i) <==> !EarlierButNewer(cs, processed, i)
  {
    if !EarlierButNewer(cs, processed, i) {
      forall j | 0 <= j < |cs| && cs[j].kind == Steer && cs[j].status == Pending
        ensures cs[j].issuedAt <= cs[i].issuedAt
      {
        assert !Newer(cs[j], cs[i]);
      }
    }
  }

  /** In particular when document order follows issue time. */
  lemma SortedSteers(cs: seq<Command>, processed: set<string>, envs: nat -> Env)
    requires DistinctIds(cs)
    requires forall i, j :: 0 <= i < j < |cs| ==> cs[i].issuedAt <= cs[j].issuedAt
    ensures forall i: nat :: ExecutesSteer(cs, processed, envs, i) ==> GreatestSteer(cs, i)
  {
    OnlyGreatestSteers(cs, processed, envs);
  }

  /** Out of order, a stale steer runs after the newer one. */
  lemma StaleSteerRuns(envs: nat -> Env)
    requires envs(0).now == envs(1).now == 10
    ensures var a := Command("a", Steer, 5, None, None, Pending);
      var b := Command("b", Steer, 3, None, None, Pending);
      ExecutesSteer([a, b], {}, envs, 0) && ExecutesSteer([a, b], {}, envs, 1) && !GreatestSteer([a, b], 1)
  {
    var a := Command("a", Steer, 5, None, None, Pending);
    var b := Command("b", Steer, 3, None, None, Pending);
    var cs := [a, b];
    assert !Overtaken(cs, {}, 0) && !Overtaken(cs, {}, 1);
    assert cs[0].issuedAt > cs[1].issuedAt;
  }

  // ── which commands run ───────────────────────────────────────────────────

  const ONE_DAY_MS: int := 86_400_000

  /** The entry's time is not up: its own limit, or one day after it was issued. */
  predicate InTime(c: Command, now: int) {
    match c.expiresAt
    case Some(limit) => now < limit
    case None => now < c.issuedAt + ONE_DAY_MS
  }

  /** A steer or interrupt gives way to a pending entry of its kind, issued after it, that is listed
      later or that the ledger holds; other commands never do. */
  ghost predicate GivesWay(cs: seq<Command>, ledger: set<string>, i: nat)
    requires i < |cs|
  {
    cs[i].kind in {Steer, Interrupt}
    && exists j :: 0 <= j < |cs| && cs[j].kind == cs[i].kind && cs[j].status == Pending
         && cs[i].issuedAt < cs[j].issuedAt && (i < j || cs[j].id in ledger)
  }

  /** An interrupt names no turn, the turn that is running, or a turn the transcript does not hold. */
  predicate StillAimed(c: Command, env: Env) {
    c.kind == Interrupt ==>
      c.turnId == None || c.turnId == env.currentTurn || c.turnId.value !in env.turns
  }

  /** Exactly which commands a pass runs, of every kind, over the command's own fields. */
  lemma {:induction false} RunsExactly(cs: seq<Command>, ledger: set<string>, envs: nat -> Env, i: nat)
    requires DistinctIds(cs) && i < |cs|
    ensures cs[i].id in ExecutedUpTo(cs, ledger, envs, |cs|) <==>
      && cs[i].status == Pending && cs[i].id !in ledger
      && InTime(cs[i], envs(i).now) && !GivesWay(cs, ledger, i) && StillAimed(cs[i], envs(i))
  {
    ExecutedMembers(cs, ledger, envs, |cs|, cs[i].id);
    VerdictExactly(cs, ledger, envs(i), i);
    if cs[i].id in ExecutedUpTo(cs, ledger, envs, |cs|) {
      var k :| 0 <= k < |cs| && cs[k].id == cs[i].id && Todo(cs, ledger, k) && Verdict(cs, ledger, k, envs(k)).Execute?;
      assert k == i;
    }
  }

  lemma VerdictExactly(cs: seq<Command>, ledger: set<string>, env: Env, i: nat)
    requires DistinctIds(cs) && i < |cs|
    ensures Verdict(cs, ledger, i, env)
            == if !InTime(cs[i], env.now) then Expire
               else if GivesWay(cs, ledger, i) || !StillAimed(cs[i], env) then Supersede
               else Execute
  {
    if Replaceable(cs[i]) {
      if Overtaken(cs, ledger, i) {
        var j :| 0 <= j < |cs| && Newer(cs[j], cs[i]) && (j > i || cs[j].id in ledger);
        assert cs[j].kind == cs[i].kind && cs[j].status == Pending;
      }
      if GivesWay(cs, ledger, i) {
        var j :| 0 <= j < |cs| && cs[j].kind == cs[i].kind && cs[j].status == Pending
                 && cs[i].issuedAt < cs[j].issuedAt && (i < j || cs[j].id in ledger);
        assert Newer(cs[j], cs[i]);
      }
    }
  }

  /** And what the pass leaves of every entry: the status that tells its fate, all else untouched. */
  lemma {:induction false} FateExactly(cs: seq<Command>, ledger: set<string>, envs: nat -> Env, i: nat)
    requires DistinctIds(cs) && i < |cs|
    ensures var c, env := cs[i], envs(i);
      ResolvedUpTo(cs, ledger, envs, |cs|)[i]
      == if c.status != Pending || c.id in ledger then c
         else c.(status := if !InTime(c, env.now) then Expired
                           else if GivesWay(cs, ledger, i) || !StillAimed(c, env) then Superseded
                           else if env.applied then Applied
                           else Rejected)
  {
    ResolvedAt(cs, ledger, envs, |cs|, i);
    VerdictExactly(cs, ledger, envs(i), i);
  }

  /** Commands run in document order. */
  lemma {:induction false} RunsInOrder(cs: seq<Command>, ledger: set<string>, envs: nat -> Env, n: nat, a: nat, b: nat)
    requires DistinctIds(cs) && n <= |cs| && a < b < |ExecutedUpTo(cs, ledger, envs, n)|
    ensures exists i, j :: 0 <= i < j < n && cs[i].id == ExecutedUpTo(cs, ledger, envs, n)[a]
                           && cs[j].id == ExecutedUpTo(cs, ledger, envs, n)[b]
  {
    var before := ExecutedUpTo(cs, ledger, envs, n - 1);
    if b < |before| {
      RunsInOrder(cs, ledger, envs, n - 1, a, b);
    } else {
      ExecutedMembers(cs, ledger, envs, n - 1, before[a]);
      assert cs[n - 1].id == ExecutedUpTo(cs, ledger, envs, n)[b];
    }
  }

  // ── crashes ──────────────────────────────────────────────────────────────

  datatype Pc = Idle | Marked(id: string, disposition: Disposition) | Ran(id: string)

  /** The durable ledger, everything ever executed, and the drainer's place in its loop. */
  datatype Machine = Machine(processed: set<string>, executed: seq<string>, pc: Pc)

  /** `Look` reads whatever the document then holds. A failed ledger read counts as "not processed":
      `unlisted` and `unread` are the ids whose read fails while searching and while evaluating. A
      failed ledger write halts the drain. A crash loses the drainer's place, and the document may
      come back at any earlier or later version. */
  datatype Action =
    | Look(cs: seq<Command>, env: Env, unlisted: set<string>, unread: set<string>, writable: bool)
    | Act
    | Settle
    | Crash

  function FirstTodo(cs: seq<Command>, processed: set<string>, from: nat): (r: nat)
    requires from <= |cs|
    ensures from <= r <= |cs|
    ensures r < |cs| ==> Todo(cs, processed, r)
    decreases |cs| - from
  {
    if from == |cs| || Todo(cs, processed, from) then from else FirstTodo(cs, processed, from + 1)
  }

  function Next(m: Machine, a: Action): Machine {
    match (a, m.pc)
    case (Crash, _) => m.(pc := Idle)
    case (Look(cs, env, unlisted, unread, writable), Idle) =>
      var at := FirstTodo(cs, m.processed - unlisted, 0);
      if at == |cs| || !writable then m
      else Machine(m.processed + {cs[at].id}, m.executed,
                   Marked(cs[at].id, Evaluate(cs[at], m.processed - unread, cs, env)))
    case (Act, Marked(id, disposition)) =>
      if disposition.Execute? then Machine(m.processed, m.executed + [id], Ran(id)) else m.(pc := Idle)
    case (Settle, Ran(_)) => m.(pc := Idle)
    case _ => m
  }

  function RunMachine(processed: set<string>, actions: seq<Action>): Machine {
    if actions == [] then Machine(processed, [], Idle)
    else Next(RunMachine(processed, actions[..|actions| - 1]), actions[|actions| - 1])
  }

  ghost predicate NoRepeat(ids: seq<string>) {
    forall i, j :: 0 <= i < j < |ids| ==> ids[i] != ids[j]
  }

  ghost predicate MachineOk(m: Machine, processed: set<string>) {
    && NoRepeat(m.executed)
    && processed <= m.processed
    && (forall i :: 0 <= i < |m.executed| ==> m.executed[i] in m.processed - processed)
    && (m.pc.Marked? ==> m.pc.id in m.processed)
    && (m.pc.Marked? && m.pc.disposition.Execute? ==> m.pc.id !in m.executed && m.pc.id !in processed)
  }

  /** Every ledger read that fails is of an id in `unlisted` while searching, in `unread` while
      evaluating. */
  ghost predicate FailsWithin(actions: seq<Action>, unlisted: set<string>, unread: set<string>) {
    forall i :: 0 <= i < |actions| && actions[i].Look? ==>
      actions[i].unlisted <= unlisted && actions[i].unread <= unread
  }

  /** With one drainer per chat, crashes at any point and any edits to the document, no command id is
      executed twice and nothing the ledger already held is executed at all, as long as no id can
      fail both of its ledger reads. */
  lemma {:induction false} NeverTwice(processed: set<string>, actions: seq<Action>, unlisted: set<string>,
                                      unread: set<string>)
    requires FailsWithin(actions, unlisted, unread) && unlisted * unread == {}
    ensures MachineOk(RunMachine(processed, actions), processed)
  {
    if actions != [] {
      var init, last := actions[..|actions| - 1], actions[|actions| - 1];
      NeverTwice(processed, init, unlisted, unread);
      KeepsOk(RunMachine(processed, init), last, processed);
    }
  }

  lemma KeepsOk(m: Machine, a: Action, processed: set<string>)
    requires MachineOk(m, processed)
    requires a.Look? ==> a.unlisted * a.unread == {}
    ensures MachineOk(Next(m, a), processed)
  {
    if a.Look? && m.pc.Idle? {
      var at := FirstTodo(a.cs, m.processed - a.unlisted, 0);
      if at < |a.cs| {
        assert a.cs[at].id !in a.unlisted * a.unread;
      }
    }
  }

  /** Exactly when: a run that executes some command twice exists as soon as one id can fail both
      reads, since the unresolved entry is then taken up again after a crash. */
  lemma LedgerReadsDecide(unlisted: set<string>, unread: set<string>)
    ensures unlisted * unread == {} <==>
      forall processed, actions :: FailsWithin(actions, unlisted, unread) ==>
        NoRepeat(RunMachine(processed, actions).executed)
  {
    if unlisted * unread == {} {
      forall processed, actions | FailsWithin(actions, unlisted, unread)
        ensures NoRepeat(RunMachine(processed, actions).executed)
      {
        NeverTwice(processed, actions, unlisted, unread);
      }
    } else {
      var id :| id in unlisted * unread;
      RunsTwice(id, unlisted, unread);
    }
  }

  lemma RunsTwice(id: string, unlisted: set<string>, unread: set<string>)
    requires id in unlisted && id in unread
    ensures exists actions :: FailsWithin(actions, unlisted, unread) && !NoRepeat(RunMachine({}, actions).executed)
  {
    var c := Command(id, Run, 0, None, None, Pending);
    var look := Look([c], Env(0, None, {}, true), {id}, {id}, true);
    var a1 := [look];
    var a2 := a1 + [Act];
    var a3 := a2 + [Crash];
    var a4 := a3 + [look];
    var a5 := a4 + [Act];
    RunSnoc({}, [], look);
    RunSnoc({}, a1, Act);
    RunSnoc({}, a2, Crash);
    RunSnoc({}, a3, look);
    RunSnoc({}, a4, Act);
    assert [] + [look] == a1;
    var at := FirstTodo([c], {}, 0);
    assert Todo([c], {}, 0) && at == 0;
    assert {id} - {id} == {} && {} - {id} == {} && {id} + {id} == {id};
    assert Evaluate(c, {}, [c], look.env) == Execute;
    assert RunMachine({}, a1) == Machine({id}, [], Marked(id, Execute));
    assert RunMachine({}, a3) == Machine({id}, [id], Idle);
    assert RunMachine({}, a4) == Machine({id}, [id], Marked(id, Execute));
    var ran := RunMachine({}, a5).executed;
    assert ran[0] == ran[1];
  }

  lemma {:induction false} RunSnoc(processed: set<string>, actions: seq<Action>, a: Action)
    ensures RunMachine(processed, actions + [a]) == Next(RunMachine(processed, actions), a)
  {
    assert (actions + [a])[..|actions|] == actions;
  }
}
