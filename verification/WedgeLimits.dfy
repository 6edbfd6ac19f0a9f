/**
 Exactly how many overlapping opens the wedge break stands: runs that show each limit, and the theorems
 that make the limits exact.
 */
module WedgeLimits {
  import opened Common
  import opened WedgeBreak
  import opened WedgeWidth

  // ── reaching a room step by step ─────────────────────────────────────────

  /** One step of a run that keeps at most `k` opens inside and kills none that has nothing to read. */
  ghost predicate Hop(q: Room, a: Action, r: Room, k: nat) {
    Fits(q, a, k) && Plausible(q, a) && Next(q, a) == r
  }

  ghost function Hops(k: nat): (Room, Action, Room) -> bool {
    (q, a, r) => Hop(q, a, r, k)
  }

  /** `states` are the stops of a walk from `start` by steps that `step` allows. */
  ghost predicate Walk<S(!new), A(!new)>(start: S, step: (S, A, S) -> bool, states: seq<S>, actions: seq<A>) {
    && |states| == |actions| + 1 && states[0] == start
    && (forall i: nat :: i < |actions| ==> WalkAt(step, states, actions, i))
  }

  ghost predicate WalkAt<S(!new), A(!new)>(step: (S, A, S) -> bool, states: seq<S>, actions: seq<A>, i: nat)
    requires i < |actions| && i + 1 < |states|
  {
    step(states[i], actions[i], states[i + 1])
  }

  lemma WalkOn<S(!new), A(!new)>(start: S, step: (S, A, S) -> bool, states: seq<S>, actions: seq<A>, a: A, r: S)
    requires Walk(start, step, states, actions) && step(states[|actions|], a, r)
    ensures Walk(start, step, states + [r], actions + [a])
  {
    var states', actions' := states + [r], actions + [a];
    forall i: nat | i < |actions'| ensures WalkAt(step, states', actions', i) {
      if i < |actions| {
        assert WalkAt(step, states, actions, i);
        assert states'[i] == states[i] && states'[i + 1] == states[i + 1] && actions'[i] == actions[i];
      }
    }
  }

  lemma WalkInit<S(!new), A(!new)>(start: S, step: (S, A, S) -> bool, states: seq<S>, actions: seq<A>)
    requires Walk(start, step, states, actions) && actions != []
    ensures var n := |actions| - 1;
      Walk(start, step, states[..n + 1], actions[..n]) && step(states[n], actions[n], states[n + 1])
  {
    var n := |actions| - 1;
    var states', actions' := states[..n + 1], actions[..n];
    assert WalkAt(step, states, actions, n);
    forall i: nat | i < n ensures WalkAt(step, states', actions', i) {
      assert WalkAt(step, states, actions, i);
    }
  }

  ghost predicate CanReach(r: Room, k: nat) {
    exists states, actions :: Walk(FRESH, Hops(k), states, actions) && states[|actions|] == r
  }

  lemma FromFresh(k: nat)
    ensures CanReach(FRESH, k)
  {
    var states: seq<Room>, actions: seq<Action> := [FRESH], [];
    assert Walk(FRESH, Hops(k), states, actions) && states[|actions|] == FRESH;
  }

  lemma Go(q: Room, a: Action, r: Room, k: nat)
    requires CanReach(q, k) && Hop(q, a, r, k)
    ensures CanReach(r, k)
  {
    var states, actions :| Walk(FRESH, Hops(k), states, actions) && states[|actions|] == q;
    WalkOn(FRESH, Hops(k), states, actions, a, r);
    assert (states + [r])[|actions + [a]|] == r;
  }

  lemma {:induction false} RunSnoc(actions: seq<Action>, a: Action, k: nat)
    ensures Run(actions + [a]) == Next(Run(actions), a)
    ensures Within(actions + [a], k) == (Within(actions, k) && Fits(Run(actions), a, k))
    ensures PlausibleRun(actions + [a]) == (PlausibleRun(actions) && Plausible(Run(actions), a))
  {
    assert (actions + [a])[..|actions|] == actions;
  }

  lemma {:induction false} WalkRuns(states: seq<Room>, actions: seq<Action>, k: nat)
    requires Walk(FRESH, Hops(k), states, actions)
    ensures Within(actions, k) && PlausibleRun(actions) && Run(actions) == states[|actions|]
  {
    if actions != [] {
      var n := |actions| - 1;
      WalkInit(FRESH, Hops(k), states, actions);
      WalkRuns(states[..n + 1], actions[..n], k);
      WalkStep(states[n], actions[n], states[n + 1], actions[..n], k);
      assert actions[..n] + [actions[n]] == actions;
    }
  }

  lemma {:induction false} WalkStep(q: Room, a: Action, r: Room, actions: seq<Action>, k: nat)
    requires Within(actions, k) && PlausibleRun(actions) && Run(actions) == q && Hop(q, a, r, k)
    ensures Within(actions + [a], k) && PlausibleRun(actions + [a]) && Run(actions + [a]) == r
  {
    RunSnoc(actions, a, k);
  }

  lemma Reached(r: Room, k: nat) returns (actions: seq<Action>)
    requires CanReach(r, k)
    ensures Within(actions, k) && PlausibleRun(actions) && Run(actions) == r
  {
    var states;
    states, actions :| Walk(FRESH, Hops(k), states, actions) && states[|actions|] == r;
    WalkRuns(states, actions, k);
  }

  // ── single steps from a room at rest ─────────────────────────────────────

  const UPDATE: seq<Bytes> := [[1]]

  /** A closed room that holds one update, with this count and story. */
  function Idle(count: nat, h: seq<Happening>): Room {
    var store := Store(count, false, true, UPDATE);
    Room(store, store, false, 0, 0, 0, 0, [], Off, h, [])
  }

  /** Below the limit an open only raises the count. */
  lemma EnterPlain(r: Room, k: nat)
    requires CanReach(r, k) && !r.loaded && r.live.attempts < REPLAY_CRASH_LIMIT && r.Inside() + 1 <= k
    ensures CanReach(r.(live := r.live.(attempts := r.live.attempts + 1), waiting := r.waiting + 1), k)
  {
    Go(r, Enter, r.(live := r.live.(attempts := r.live.attempts + 1), waiting := r.waiting + 1), k);
  }

  /** A sync with nothing to tell. */
  lemma CommitQuiet(r: Room, k: nat)
    requires CanReach(r, k) && r.recent == [] && r.settling == 0
    ensures CanReach(r.(durable := r.live, waiting := 0, synced := r.synced + r.waiting), k)
  {
    assert r.past + [] == r.past;
    Go(r, Commit, r.(durable := r.live, waiting := 0, synced := r.synced + r.waiting), k);
  }

  /** A sync that stores a reset. */
  lemma CommitReset(r: Room, k: nat)
    requires CanReach(r, k) && r.recent == [] && r.settling > 0 && r.waiting == 0
    ensures CanReach(r.(durable := r.live, settling := 0, settled := r.settled + r.settling,
                        past := r.past + [Completed]), k)
  {
    assert r.past + [] == r.past;
    Go(r, Commit, r.(durable := r.live, settling := 0, settled := r.settled + r.settling,
                     past := r.past + [Completed]), k);
  }

  /** A sync that stores what was told. */
  lemma CommitTold(r: Room, h: seq<Happening>, k: nat)
    requires CanReach(r, k) && r.settling == 0 && h == r.past + r.recent
    ensures CanReach(r.(durable := r.live, waiting := 0, synced := r.synced + r.waiting, past := h, recent := []), k)
  {
    Go(r, Commit, r.(durable := r.live, waiting := 0, synced := r.synced + r.waiting, past := h, recent := []), k);
  }

  lemma ReplayOne(r: Room, k: nat)
    requires CanReach(r, k) && r.synced > 0
    ensures CanReach(r.(live := r.live.(attempts := 0), synced := r.synced - 1, settling := r.settling + 1), k)
  {
    Go(r, Replay, r.(live := r.live.(attempts := 0), synced := r.synced - 1, settling := r.settling + 1), k);
  }

  lemma SettleOne(r: Room, k: nat)
    requires CanReach(r, k) && r.settled == 1
    ensures CanReach(r.(settled := 0, loaded := true), k)
  {
    Go(r, Settle, r.(settled := 0, loaded := true), k);
  }

  /** An open whose count is stored replays and gets its reset stored. */
  lemma ReplayAndSync(r: Room, after: Room, k: nat)
    requires CanReach(r, k) && r.synced > 0 && r.waiting == r.settling == r.settled == 0 && r.recent == []
    requires var store := r.live.(attempts := 0);
      after == r.(durable := store, live := store, synced := r.synced - 1, settled := 1, past := r.past + [Completed])
    ensures CanReach(after, k)
  {
    ReplayOne(r, k);
    CommitReset(r.(live := r.live.(attempts := 0), synced := r.synced - 1, settling := 1), k);
  }

  /** One open dies. */
  lemma CrashOne(r: Room, k: nat)
    requires CanReach(r, k) && r.recent == [] && r.synced == 1 && r.settling == 0 && !Blank(r)
    ensures CanReach(Room(r.durable, r.durable, false, 0, 0, 0, 0, [], Off, r.past + [Died], []), k)
  {
    assert Deaths(1) == Deaths(0) + [Died];
    assert r.past + [] + [Died] == r.past + [Died];
    Go(r, Crash, Room(r.durable, r.durable, false, 0, 0, 0, 0, [], Off, r.past + [Died], []), k);
  }

  // ── a room with an update, opens that die, opens that overlap ────────────

  /** An empty room with this count in storage, `waiting` opens under way and `synced` ready to replay. */
  function Opening(stored: nat, count: nat, waiting: nat, synced: nat): Room {
    Room(Store(stored, false, false, []), Store(count, false, false, []), false, waiting, synced, 0, 0, [], Off, [], [])
  }

  lemma ToEmpty(k: nat)
    ensures CanReach(Opening(0, 0, 0, 0), k)
  {
    FromFresh(k);
    assert FRESH == Opening(0, 0, 0, 0);
  }

  lemma ToOpening(k: nat)
    requires k >= 1
    ensures CanReach(Opening(1, 1, 0, 1), k)
  {
    ToEmpty(k);
    Go(Opening(0, 0, 0, 0), Enter, Opening(0, 1, 1, 0), k);
    CommitQuiet(Opening(0, 1, 1, 0), k);
  }

  /** An empty room opens. */
  lemma ToWarm(k: nat)
    requires k >= 1
    ensures var zero := Store(0, false, false, []);
      CanReach(Room(zero, zero, true, 0, 0, 0, 0, [], Off, [Completed], []), k)
  {
    var zero := Store(0, false, false, []);
    var settled := Room(zero, zero, false, 0, 0, 0, 1, [], Off, [Completed], []);
    ToOpening(k);
    assert [] + [Completed] == [Completed];
    ReplayAndSync(Opening(1, 1, 0, 1), settled, k);
    SettleOne(settled, k);
  }

  lemma TakesUpdate(r: Room, k: nat)
    requires CanReach(r, k) && r.loaded && r.pending == [] && r.recent == []
    ensures CanReach(r.(live := r.live.(postReset := false, backupDirty := true), pending := UPDATE,
                        recent := [Recorded]), k)
  {
    assert UPDATE[..0] == [];
    Go(r, Record(UPDATE), r.(live := r.live.(postReset := false, backupDirty := true), pending := UPDATE,
                             recent := [Recorded]), k);
  }

  lemma FlushUpdate(r: Room, k: nat)
    requires CanReach(r, k) && r.pending == UPDATE && r.live.log == []
    ensures CanReach(r.(live := r.live.(log := UPDATE), pending := []), k)
  {
    Go(r, Flush, r.(live := r.live.(log := UPDATE), pending := []), k);
  }

  /** And takes an update. */
  lemma ToLoaded(k: nat)
    requires k >= 1
    ensures CanReach(Idle(0, [Completed, Recorded]).(loaded := true), k)
  {
    var zero := Store(0, false, false, []);
    var warm := Room(zero, zero, true, 0, 0, 0, 0, [], Off, [Completed], []);
    ToWarm(k);
    TakesUpdate(warm, k);
    var told := warm.(live := Store(0, false, true, []), recent := [Recorded]);
    FlushUpdate(told.(pending := UPDATE), k);
    CommitTold(told.(live := Store(0, false, true, UPDATE)), [Completed, Recorded], k);
  }

  lemma CloseRoom(r: Room, k: nat)
    requires CanReach(r, k)
    ensures CanReach(r.(loaded := false), k)
  {
    Go(r, Release, r.(loaded := false), k);
  }

  lemma ToIdle(k: nat)
    requires k >= 1
    ensures CanReach(Idle(0, [Completed, Recorded]), k)
  {
    ToLoaded(k);
    CloseRoom(Idle(0, [Completed, Recorded]).(loaded := true), k);
  }

  lemma OneDies(count: nat, h: seq<Happening>, k: nat)
    requires CanReach(Idle(count, h), k) && k >= 1 && count < REPLAY_CRASH_LIMIT
    ensures CanReach(Idle(count + 1, h + [Died]), k)
  {
    var store := Store(count + 1, false, true, UPDATE);
    EnterPlain(Idle(count, h), k);
    CommitQuiet(Idle(count, h).(live := store, waiting := 1), k);
    CrashOne(Idle(count, h).(durable := store, live := store, synced := 1), k);
  }

  lemma {:induction false} ToDead(n: nat, k: nat)
    requires n <= REPLAY_CRASH_LIMIT && k >= 1
    ensures CanReach(Idle(n, [Completed, Recorded] + Deaths(n)), k)
  {
    if n == 0 {
      ToIdle(k);
      assert [Completed, Recorded] + Deaths(0) == [Completed, Recorded];
    } else {
      ToDead(n - 1, k);
      OneDies(n - 1, [Completed, Recorded] + Deaths(n - 1), k);
      DeathsSnoc([Completed, Recorded], n - 1);
    }
  }

  /** Opens that enter while the others wait each raise the count. */
  lemma {:induction false} ManyEnter(r: Room, m: nat, k: nat)
    requires CanReach(r, k) && !r.loaded && r.Inside() == 0 && m <= k
    requires r.live.attempts + m <= REPLAY_CRASH_LIMIT
    ensures CanReach(r.(live := r.live.(attempts := r.live.attempts + m), waiting := m), k)
  {
    if m == 0 {
      assert r.(live := r.live.(attempts := r.live.attempts + m), waiting := m) == r;
    } else {
      ManyEnter(r, m - 1, k);
      EnterPlain(r.(live := r.live.(attempts := r.live.attempts + m - 1), waiting := m - 1), k);
    }
  }

  /** At the limit the next open drops the log. */
  lemma LastDrops(r: Room, k: nat)
    requires CanReach(r, k) && !r.loaded && r.Inside() + 1 <= k && r.live.attempts == 3 && r.recent == []
    ensures CanReach(r.(live := Dropping(r.live).(attempts := 4), waiting := r.waiting + 1, pending := [],
                        recent := [Dropped]), k)
  {
    Go(r, Enter, r.(live := Dropping(r.live).(attempts := 4), waiting := r.waiting + 1, pending := [],
                    recent := [Dropped]), k);
  }

  // ── runs that show the limits ────────────────────────────────────────────

  /** With `w` opens inside, 4 - w deaths are enough to lose the log. */
  lemma DropsEarly(w: nat) returns (actions: seq<Action>, at: nat)
    requires 1 <= w <= 4
    ensures Within(actions, w) && PlausibleRun(actions)
    ensures var h := Run(actions).Story(); at < |h| && h[at].Dropped? && Streak(h[..at]) == 4 - w
  {
    var n := 4 - w;
    var h := [Completed, Recorded] + Deaths(n);
    var r := Idle(n, h);
    ToDead(n, w);
    ManyEnter(r, w - 1, w);
    LastDrops(r.(live := r.live.(attempts := 3), waiting := w - 1), w);
    var end := r.(live := Dropping(r.live).(attempts := 4), waiting := w, recent := [Dropped]);
    actions := Reached(end, w);
    at := |h|;
    assert end.Story() == h + [Dropped] && (h + [Dropped])[..at] == h;
    ToldStreak(n);
  }

  lemma {:induction false} ToldStreak(n: nat)
    ensures Streak([Completed, Recorded] + Deaths(n)) == n
  {
    DeathsAdd([Completed, Recorded], n, 0);
    StoryPush([Completed], Recorded);
    StoryPush([], Completed);
    assert [] + [Completed] == [Completed] && [Completed] + [Recorded] == [Completed, Recorded];
  }

  /** Four overlapping opens of a healthy room drop its log with no death at all. */
  lemma FourOpensDrop()
    ensures var r := Run([Enter, Enter, Enter, Enter]); r.Story() == [Dropped] && Streak(r.Story()) == 0
  {
    var a1 := [Enter];
    var a2, a3, a4 := a1 + [Enter], a1 + [Enter] + [Enter], a1 + [Enter] + [Enter] + [Enter];
    assert [] + [Enter] == a1 && a4 == [Enter, Enter, Enter, Enter];
    RunSnoc([], Enter, 4);
    RunSnoc(a1, Enter, 4);
    RunSnoc(a2, Enter, 4);
    RunSnoc(a3, Enter, 4);
    assert Run(a4).recent == [Dropped] && Run(a4).past == [];
    StoryPush([], Dropped);
    assert [] + [Dropped] == [Dropped];
  }

  /** Two opens overlap and the first completes: its reset wipes the other's increment. */
  lemma LostDeath(k: nat)
    requires k >= 2
    ensures CanReach(Idle(0, [Completed, Recorded] + [Completed]).(synced := 1, settled := 1), k)
    ensures Streak([Completed, Recorded] + [Completed]) == 0
  {
    var idle, store := Idle(0, [Completed, Recorded]), Store(2, false, true, UPDATE);
    ToIdle(k);
    ManyEnter(idle, 2, k);
    CommitQuiet(idle.(live := store, waiting := 2), k);
    ReplayAndSync(idle.(durable := store, live := store, synced := 2),
                  Idle(0, [Completed, Recorded] + [Completed]).(synced := 1, settled := 1), k);
    StoryPush([Completed, Recorded], Completed);
  }

  lemma Miscounted(k: nat) returns (actions: seq<Action>)
    requires k >= 2
    ensures Within(actions, k) && !Counted(Run(actions))
  {
    LostDeath(k);
    actions := Reached(Idle(0, [Completed, Recorded] + [Completed]).(synced := 1, settled := 1), k);
  }

  /** And then a fourth open can die in a row. */
  lemma FourDie(k: nat) returns (actions: seq<Action>)
    requires k >= 2
    ensures Within(actions, k) && PlausibleRun(actions) && Streak(Run(actions).past) == 4
  {
    var h := [Completed, Recorded] + [Completed];
    LostDeath(k);
    CrashOne(Idle(0, h).(synced := 1, settled := 1), k);
    OneDies(0, h + [Died], k);
    OneDies(1, h + [Died] + [Died], k);
    OneDies(2, h + [Died] + [Died] + [Died], k);
    actions := Reached(Idle(3, h + [Died] + [Died] + [Died] + [Died]), k);
    StoryPush(h, Died);
    StoryPush(h + [Died], Died);
    StoryPush(h + [Died] + [Died], Died);
    StoryPush(h + [Died] + [Died] + [Died], Died);
  }

  /** An alarm holds the document, which is then released, and three opens enter. */
  lemma ThreeBehindAlarm()
    ensures CanReach(Idle(0, [Completed, Recorded]).(live := Store(3, false, true, UPDATE), waiting := 3,
                                                     alarm := Holding), 4)
  {
    var warm := Idle(0, [Completed, Recorded]).(loaded := true);
    ToLoaded(4);
    Go(warm, Start, warm.(alarm := Due), 4);
    Go(warm.(alarm := Due), Hold, warm.(alarm := Holding), 4);
    CloseRoom(warm.(alarm := Holding), 4);
    ManyEnter(Idle(0, [Completed, Recorded]).(alarm := Holding), 3, 4);
  }

  /** The alarm passes its gate, and the open it makes in the same stretch drops the log. */
  lemma GateDrops()
    ensures var gone := Store(4, true, true, []);
      CanReach(Idle(0, [Completed, Recorded] + [Dropped]).(durable := gone, live := gone, synced := 4,
                                                           alarm := Passed), 4)
  {
    var told, gone := [Completed, Recorded], Store(4, true, true, []);
    var before := Idle(0, told).(live := Store(3, false, true, UPDATE), waiting := 3, alarm := Holding);
    var after := Idle(0, told).(live := gone, waiting := 4, alarm := Passed, recent := [Dropped]);
    ThreeBehindAlarm();
    assert Next(before, Gate) == after;
    Go(before, Gate, after, 4);
    CommitTold(after, told + [Dropped], 4);
  }

  lemma PutHollow(r: Room) returns (actions: seq<Action>)
    requires CanReach(r, 4) && r.loaded && r.alarm.Passed? && r.recent == []
    requires r.past == [Completed, Recorded] + [Dropped] + [Completed]
    ensures Within(actions, 4) && PlausibleRun(actions) && !BackupsSafe(Run(actions).Story())
  {
    StoryPush([Completed, Recorded], Dropped);
    StoryPush([Completed, Recorded] + [Dropped], Completed);
    assert r.Story() == r.past;
    var end := r.(alarm := Off, live := r.live.(backupDirty := false), recent := [BackedUp(false)]);
    Go(r, Put(true), end, 4);
    actions := Reached(end, 4);
    SafePrefix(r.past, BackedUp(false));
    assert end.Story() == r.past + [BackedUp(false)];
  }

  /** An alarm holds the document and the document is released; three opens enter; the alarm passes its
      gate and opens the document again, which drops the log; and the emptied document is put: with no
      earlier backup to compare with, the version test lets it through. */
  lemma HollowBackup() returns (actions: seq<Action>)
    ensures Within(actions, 4) && PlausibleRun(actions) && !BackupsSafe(Run(actions).Story())
  {
    var gone, store := Store(4, true, true, []), Store(0, true, true, []);
    var r := Idle(0, [Completed, Recorded] + [Dropped]).(durable := gone, live := gone, synced := 4, alarm := Passed);
    var done := r.(durable := store, live := store, synced := 3, settled := 1,
                   past := [Completed, Recorded] + [Dropped] + [Completed]);
    GateDrops();
    ReplayAndSync(r, done, 4);
    SettleOne(done, 4);
    actions := PutHollow(done.(settled := 0, loaded := true));
  }

  // ── exactly when ─────────────────────────────────────────────────────────

  /** Every drop follows `d` deaths in a row, in all runs with at most `k` opens inside at once, if and
      only if d + k is at most four. For the three deaths the limit speaks of: exactly when no open
      enters between another's increment and its reset. */
  lemma DropsNeed(d: nat, k: nat)
    requires k >= 1
    ensures (forall actions :: Within(actions, k) ==> DropsAfter(Run(actions).Story(), d)) <==> d == 0 || d + k <= 4
  {
    if d == 0 || d + k <= 4 {
      forall actions | Within(actions, k) ensures DropsAfter(Run(actions).Story(), d) {
        WidthSafe(actions, k);
      }
    } else {
      var w := if k <= 4 then k else 4;
      var actions, at := DropsEarly(w);
      WithinMore(actions, w, k);
      assert !DropsAfter(Run(actions).Story(), d);
    }
  }

  /** The stored count is the deaths in a row plus the open under way, in all runs, if and only if
      opens come one at a time. */
  lemma CountIsStreak(k: nat)
    ensures (forall actions :: Within(actions, k) ==> Counted(Run(actions))) <==> k <= 1
  {
    if k <= 1 {
      forall actions | Within(actions, k) ensures Counted(Run(actions)) {
        WithinMore(actions, k, 1);
        RunCounted(actions);
      }
    } else {
      var actions := Miscounted(k);
    }
  }

  /** If an open with nothing to read is not killed, never more than three die in a row, in all runs, if
      and only if opens come one at a time. */
  lemma AtMostThreeDeaths(k: nat)
    ensures (forall actions :: Within(actions, k) && PlausibleRun(actions) ==>
               Streak(Run(actions).past) <= REPLAY_CRASH_LIMIT) <==> k <= 1
  {
    if k <= 1 {
      forall actions | Within(actions, k) && PlausibleRun(actions)
        ensures Streak(Run(actions).past) <= REPLAY_CRASH_LIMIT
      {
        WithinMore(actions, k, 1);
        RunRecovers(actions);
      }
    } else {
      var actions := FourDie(k);
      assert Streak(Run(actions).past) > REPLAY_CRASH_LIMIT;
    }
  }

  /** No backup is put between a drop and the next real update, in all runs, if and only if at most three
      opens are inside at once: then neither the alarm nor another flow can drop the log between the gate
      and the put. */
  lemma BackupsNeed(k: nat)
    ensures (forall actions :: Within(actions, k) ==> BackupsSafe(Run(actions).Story())) <==> k <= 3
  {
    if k <= 3 {
      forall actions | Within(actions, k) ensures BackupsSafe(Run(actions).Story()) {
        WidthSafe(actions, k);
      }
    } else {
      var actions := HollowBackup();
      WithinMore(actions, 4, k);
      assert !BackupsSafe(Run(actions).Story());
    }
  }
}
