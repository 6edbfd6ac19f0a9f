/**
 The crash-counted wedge break (edge/src/session-room.ts): a cold open raises a stored count before it
 replays the log and clears it afterwards; at the limit the log is dropped, and the nightly backup
 stays shut until real state arrives.

 An open waits for storage twice, once after raising the count and once after clearing it, and other
 opens may enter while it waits. A crash takes storage back to the last sync, kills every open under
 way and empties memory.
 */
module WedgeBreak {
  import opened Common
  import opened UpdateLog

  const REPLAY_CRASH_LIMIT: nat := 3

  /** The stored counters and flags, and the log that a cold replay reads. */
  datatype Store = Store(attempts: nat, postReset: bool, backupDirty: bool, log: seq<Bytes>)

  /** `BackedUp` tells whether real state had come in since the last drop when the backup was put. */
  datatype Happening = Died | Completed | Dropped | Recorded | BackedUp(refilled: bool)

  /** The nightly alarm: idle, found a backup due, holds the document, or past the backup gate. */
  datatype Alarm = Off | Due | Holding | Passed

  /**
   `live` is storage as running code sees it, `durable` what a crash comes back to. `waiting` opens have
   raised the count and wait for their first sync, `synced` ones may replay, `settling` ones have cleared
   the count and wait for their second sync, `settled` ones are about to publish the document. The story
   is what happened: `past` up to the last sync, `recent` since.
   */
  datatype Room = Room(durable: Store, live: Store, loaded: bool, waiting: nat, synced: nat, settling: nat,
                       settled: nat, pending: seq<Bytes>, alarm: Alarm, past: seq<Happening>,
                       recent: seq<Happening>)
  {
    function Story(): seq<Happening> {
      past + recent
    }

    /** Opens between their increment and their reset. */
    function Inside(): nat {
      waiting + synced
    }
  }

  /** The stretches of code between two waits. `Commit` is storage becoming durable, at any moment. */
  datatype Action =
    | Enter | Replay | Settle | Commit | Crash | Record(updates: seq<Bytes>) | Flush | Release
    | Start | Hold | Gate | Put(advances: bool)

  function Dropping(s: Store): Store {
    s.(postReset := true, log := [])
  }

  function Entered(r: Room): Room {
    var drop := r.live.attempts >= REPLAY_CRASH_LIMIT;
    var store := if drop then Dropping(r.live) else r.live;
    r.(live := store.(attempts := r.live.attempts + 1), waiting := r.waiting + 1,
       pending := if drop then [] else r.pending, recent := if drop then r.recent + [Dropped] else r.recent)
  }

  function Committed(r: Room): Room {
    r.(durable := r.live, synced := r.synced + r.waiting, waiting := 0, settled := r.settled + r.settling,
       settling := 0, past := if r.settling > 0 then r.Story() + [Completed] else r.Story(), recent := [])
  }

  /** What a crash cannot undo: a backup that was put. */
  function Lasting(recent: seq<Happening>): seq<Happening> {
    if recent == [] then []
    else
      var x := recent[|recent| - 1];
      if x.BackedUp? then Lasting(recent[..|recent| - 1]) + [x] else Lasting(recent[..|recent| - 1])
  }

  function Deaths(n: nat): seq<Happening> {
    if n == 0 then [] else Deaths(n - 1) + [Died]
  }

  /** Every open whose increment is stored and whose reset is not counts as dead. */
  function Crashed(r: Room): Room {
    Room(r.durable, r.durable, false, 0, 0, 0, 0, [], Off,
         r.past + Lasting(r.recent) + Deaths(r.synced + r.settling), [])
  }

  function Next(r: Room, a: Action): Room {
    match a
    case Enter => if r.loaded then r else Entered(r)
    case Replay =>
      if r.synced == 0 then r
      else r.(live := r.live.(attempts := 0), synced := r.synced - 1, settling := r.settling + 1)
    case Settle => if r.settled == 0 then r else r.(settled := r.settled - 1, loaded := true)
    case Commit => Committed(r)
    case Crash => Crashed(r)
    case Record(updates) =>
      if r.loaded && NonEmpty(updates) != [] then
        r.(live := r.live.(postReset := false, backupDirty := true), pending := r.pending + NonEmpty(updates),
           recent := r.recent + [Recorded])
      else r
    case Flush => r.(live := r.live.(log := r.live.log + r.pending), pending := [])
    case Release => r.(loaded := false)
    case Start => if r.alarm.Off? && r.live.backupDirty then r.(alarm := Due) else r
    case Hold => if r.alarm.Due? && r.loaded then r.(alarm := Holding) else r
    case Gate =>
      if !r.alarm.Holding? then r
      else if r.live.postReset then r.(alarm := Off)
      else if r.loaded then r.(alarm := Passed)
      else Entered(r.(alarm := Passed))
    case Put(advances) =>
      if !r.alarm.Passed? || !r.loaded then r
      else if !advances then r.(alarm := Off)
      else r.(alarm := Off, live := r.live.(backupDirty := false),
              recent := r.recent + [BackedUp(Refilled(r.Story()))])
  }

  /** The action makes a cold open enter: a call of `ensureDoc`, or the one an alarm makes in the same
      stretch as its test of the gate. */
  predicate Opens(r: Room, a: Action) {
    !r.loaded && (a.Enter? || (a.Gate? && r.alarm.Holding? && !r.live.postReset))
  }

  /** Apart from the alarm, every open enters the same way. */
  lemma OpensEnters(r: Room, a: Action)
    requires Opens(r, a)
    ensures Next(r, a) == Entered(if a.Gate? then r.(alarm := Passed) else r)
  {
  }

  const FRESH := Room(Store(0, false, false, []), Store(0, false, false, []), false, 0, 0, 0, 0, [], Off, [], [])

  function Run(actions: seq<Action>): Room {
    if actions == [] then FRESH else Next(Run(actions[..|actions| - 1]), actions[|actions| - 1])
  }

  // ── what the story says ──────────────────────────────────────────────────

  /** Opens that died since one last completed. */
  function Streak(h: seq<Happening>): nat {
    if h == [] then 0
    else
      var init, last := h[..|h| - 1], h[|h| - 1];
      if last.Died? then Streak(init) + 1 else if last.Completed? then 0 else Streak(init)
  }

  /** Something real was recorded since the last drop, if there was one. */
  predicate Refilled(h: seq<Happening>) {
    h == [] || h[|h| - 1].Recorded? || (!h[|h| - 1].Dropped? && Refilled(h[..|h| - 1]))
  }

  /** Every drop came after at least `d` deaths in a row. */
  ghost predicate DropsAfter(h: seq<Happening>, d: int) {
    forall k :: 0 <= k < |h| && h[k].Dropped? ==> Streak(h[..k]) >= d
  }

  /** No backup was put between a drop and the next real update. */
  ghost predicate BackupsSafe(h: seq<Happening>) {
    forall k :: 0 <= k < |h| && h[k].BackedUp? ==> h[k].refilled
  }

  lemma {:induction false} StoryPush(h: seq<Happening>, x: Happening)
    ensures Streak(h + [x]) == if x.Died? then Streak(h) + 1 else if x.Completed? then 0 else Streak(h)
    ensures Refilled(h + [x]) == (x.Recorded? || (!x.Dropped? && Refilled(h)))
  {
    assert (h + [x])[..|h|] == h;
  }

  lemma {:induction false} DropsPush(h: seq<Happening>, x: Happening, d: int)
    requires DropsAfter(h, d) && (x.Dropped? ==> Streak(h) >= d)
    ensures DropsAfter(h + [x], d)
  {
    var more := h + [x];
    forall k | 0 <= k < |more| && more[k].Dropped? ensures Streak(more[..k]) >= d {
      assert k < |h| ==> more[..k] == h[..k] && more[k] == h[k];
      assert k == |h| ==> more[..k] == h;
    }
  }

  lemma {:induction false} DeathsAdd(h: seq<Happening>, n: nat, d: int)
    ensures Streak(h + Deaths(n)) == Streak(h) + n
    ensures Refilled(h + Deaths(n)) == Refilled(h)
    ensures DropsAfter(h, d) ==> DropsAfter(h + Deaths(n), d)
    ensures BackupsSafe(h) ==> BackupsSafe(h + Deaths(n))
  {
    if n == 0 {
      assert h + Deaths(0) == h;
    } else {
      DeathsAdd(h, n - 1, d);
      DeathsSnoc(h, n - 1);
      OneDeath(h + Deaths(n - 1), d);
    }
  }

  lemma DeathsSnoc(h: seq<Happening>, n: nat)
    ensures h + Deaths(n + 1) == h + Deaths(n) + [Died]
  {
  }

  lemma {:induction false} OneDeath(h: seq<Happening>, d: int)
    ensures Streak(h + [Died]) == Streak(h) + 1
    ensures Refilled(h + [Died]) == Refilled(h)
    ensures DropsAfter(h, d) ==> DropsAfter(h + [Died], d)
    ensures BackupsSafe(h) ==> BackupsSafe(h + [Died])
  {
    StoryPush(h, Died);
    SafePrefix(h, Died);
    if DropsAfter(h, d) {
      DropsPush(h, Died, d);
    }
  }

  /** Undoing what was not synced keeps the backups put, and nothing of drops or updates. */
  lemma {:induction false} LastingAdds(past: seq<Happening>, recent: seq<Happening>, d: int)
    ensures Streak(past + Lasting(recent)) == Streak(past)
    ensures Refilled(past + Lasting(recent)) == Refilled(past)
    ensures DropsAfter(past, d) ==> DropsAfter(past + Lasting(recent), d)
    ensures BackupsSafe(past + recent) ==> BackupsSafe(past + Lasting(recent))
  {
    if recent == [] {
      assert past + Lasting(recent) == past;
    } else {
      var init, x := recent[..|recent| - 1], recent[|recent| - 1];
      LastingAdds(past, init, d);
      assert past + recent == past + init + [x];
      SafePrefix(past + init, x);
      if x.BackedUp? {
        var before := past + Lasting(init);
        assert past + Lasting(recent) == before + [x];
        StoryPush(before, x);
        if DropsAfter(before, d) {
          DropsPush(before, x, d);
        }
      }
    }
  }

  lemma SafePrefix(h: seq<Happening>, x: Happening)
    ensures BackupsSafe(h + [x]) <==> BackupsSafe(h) && (x.BackedUp? ==> x.refilled)
  {
    var more := h + [x];
    assert more[|h|] == x;
    if BackupsSafe(more) {
      forall k | 0 <= k < |h| && h[k].BackedUp? ensures h[k].refilled {
        assert more[k] == h[k];
      }
    }
  }

  lemma {:induction false} PrefixDrops(past: seq<Happening>, recent: seq<Happening>, d: int)
    requires DropsAfter(past + recent, d)
    ensures DropsAfter(past, d)
  {
    forall k | 0 <= k < |past| && past[k].Dropped? ensures Streak(past[..k]) >= d {
      assert (past + recent)[..k] == past[..k] && (past + recent)[k] == past[k];
    }
  }

  // ── every run, however opens overlap ─────────────────────────────────────

  ghost predicate NoDeaths(recent: seq<Happening>) {
    forall k :: 0 <= k < |recent| ==> !recent[k].Died? && !recent[k].Completed?
  }

  lemma {:induction false} CalmStreak(past: seq<Happening>, recent: seq<Happening>)
    requires NoDeaths(recent)
    ensures Streak(past + recent) == Streak(past)
  {
    if recent == [] {
      assert past + recent == past;
    } else {
      var init, x := recent[..|recent| - 1], recent[|recent| - 1];
      CalmStreak(past, init);
      assert past + recent == past + init + [x];
      StoryPush(past + init, x);
    }
  }

  /** The count never exceeds the deaths in a row plus the opens under way; what a crash comes back to
      never exceeds the deaths in a row once that crash has added its own. */
  ghost predicate Bounded(r: Room) {
    && r.live.attempts <= Streak(r.past) + r.Inside()
    && r.durable.attempts <= Streak(r.past) + r.synced + r.settling
    && (r.settling > 0 ==> r.live.attempts <= r.Inside())
    && (r.loaded || r.settled > 0 || r.alarm.Holding? || r.alarm.Passed? ==> Streak(r.past) == 0)
    && NoDeaths(r.recent)
  }

  ghost predicate Gated(r: Room) {
    (!r.live.postReset ==> Refilled(r.Story())) && (!r.durable.postReset ==> Refilled(r.past))
  }

  lemma CommitBounded(r: Room)
    requires Bounded(r)
    ensures Bounded(Committed(r))
  {
    CalmStreak(r.past, r.recent);
    StoryPush(r.Story(), Completed);
  }

  lemma CrashBounded(r: Room)
    requires Bounded(r)
    ensures Bounded(Crashed(r)) && Streak(Crashed(r).past) == Streak(r.past) + r.synced + r.settling
  {
    LastingAdds(r.past, r.recent, 0);
    DeathsAdd(r.past + Lasting(r.recent), r.synced + r.settling, 0);
  }

  /** What a crash does to the story. */
  lemma CrashStory(r: Room, d: int)
    ensures Crashed(r).Story() == Crashed(r).past
    ensures Refilled(Crashed(r).past) == Refilled(r.past)
    ensures DropsAfter(r.past, d) ==> DropsAfter(Crashed(r).past, d)
    ensures BackupsSafe(r.Story()) ==> BackupsSafe(Crashed(r).past)
  {
    LastingAdds(r.past, r.recent, d);
    DeathsAdd(r.past + Lasting(r.recent), r.synced + r.settling, d);
    assert Crashed(r).past + [] == Crashed(r).past;
  }

  lemma EnterBounded(r: Room)
    requires Bounded(r)
    ensures Bounded(Entered(r))
  {
  }

  lemma StepBounded(r: Room, a: Action)
    requires Bounded(r)
    ensures Bounded(Next(r, a))
  {
    if a.Commit? {
      CommitBounded(r);
    } else if a.Crash? {
      CrashBounded(r);
    } else if Opens(r, a) {
      OpensEnters(r, a);
      EnterBounded(if a.Gate? then r.(alarm := Passed) else r);
    }
  }

  lemma CommitGated(r: Room)
    requires Gated(r)
    ensures Gated(Committed(r))
  {
    StoryPush(r.Story(), Completed);
    assert Committed(r).past + [] == Committed(r).past;
  }

  /** A step that tells one more thing. */
  lemma TellGated(r: Room, next: Room, x: Happening)
    requires Gated(r) && next.past == r.past && next.recent == r.recent + [x] && next.durable == r.durable
    requires !next.live.postReset ==> x.Recorded? || (!x.Dropped? && !r.live.postReset)
    ensures Gated(next)
  {
    assert next.Story() == r.Story() + [x];
    StoryPush(r.Story(), x);
  }

  lemma StepGated(r: Room, a: Action)
    requires Gated(r)
    ensures Gated(Next(r, a))
  {
    var next := Next(r, a);
    if a.Crash? {
      CrashStory(r, 0);
    } else if a.Commit? {
      CommitGated(r);
    } else if next.recent != r.recent {
      TellGated(r, next, next.recent[|r.recent|]);
    }
  }

  /** In every run, with crashes anywhere and any number of overlapping opens. */
  lemma {:induction false} CountBounded(actions: seq<Action>)
    ensures Bounded(Run(actions)) && Gated(Run(actions))
  {
    if actions != [] {
      var init := actions[..|actions| - 1];
      CountBounded(init);
      StepBounded(Run(init), actions[|actions| - 1]);
      StepGated(Run(init), actions[|actions| - 1]);
    }
  }

  // ── the room object, one method per stretch between two waits ────────────

  class SessionRoom {
    var durable: Store
    var live: Store
    var loaded: bool
    var waiting: nat
    var synced: nat
    var settling: nat
    var settled: nat
    var pending: seq<Bytes>
    var alarm: Alarm
    ghost var past: seq<Happening>
    ghost var recent: seq<Happening>

    constructor ()
      ensures View() == FRESH
    {
      durable, live := Store(0, false, false, []), Store(0, false, false, []);
      loaded, waiting, synced, settling, settled, pending, alarm := false, 0, 0, 0, 0, [], Off;
      past, recent := [], [];
    }

    ghost function View(): Room
      reads this
    {
      Room(durable, live, loaded, waiting, synced, settling, settled, pending, alarm, past, recent)
    }

    method DropLog()
      modifies this
      ensures View() == old(View()).(live := Dropping(old(live)), pending := [], recent := old(recent) + [Dropped])
    {
      live := live.(log := []);
      pending := [];
      live := live.(postReset := true);
      recent := recent + [Dropped];
    }

    /** `ensureDoc` up to its first wait, whatever other opens are doing. */
    method EnsureDocEnter() returns (hit: bool)
      modifies this
      ensures hit == old(loaded) && View() == Next(old(View()), Enter)
    {
      if loaded {
        return true;
      }
      var attempts := live.attempts;
      if attempts >= REPLAY_CRASH_LIMIT {
        DropLog();
      }
      live := live.(attempts := attempts + 1);
      waiting := waiting + 1;
      return false;
    }

    /** From the first sync to the second: the replay, then the reset. */
    method EnsureDocReplay()
      requires synced > 0
      modifies this
      ensures View() == Next(old(View()), Replay)
    {
      live := live.(attempts := 0);
      synced, settling := synced - 1, settling + 1;
    }

    /** After the second sync: the document is published. */
    method EnsureDocSettle()
      requires settled > 0
      modifies this
      ensures loaded && View() == Next(old(View()), Settle)
    {
      settled, loaded := settled - 1, true;
    }

    method RecordLoroUpdates(updates: seq<Bytes>)
      requires loaded
      modifies this
      ensures View() == Next(old(View()), Record(updates))
    {
      var any := false;
      for i := 0 to |updates|
        invariant any <==> NonEmpty(updates[..i]) != []
        invariant View() == old(View()).(pending := old(pending) + NonEmpty(updates[..i]))
      {
        assert updates[..i + 1][..i] == updates[..i];
        if |updates[i]| == 0 {
          continue;
        }
        any := true;
        pending := pending + [updates[i]];
      }
      assert updates[..|updates|] == updates;
      if !any {
        return;
      }
      live := live.(backupDirty := true);
      live := live.(postReset := false);
      recent := recent + [Recorded];
    }

    /** The alarm after its flush: with nothing to back up it stops here. */
    method AlarmStart() returns (due: bool)
      requires alarm.Off?
      modifies this
      ensures due == old(live).backupDirty && View() == Next(old(View()), Start)
    {
      if !live.backupDirty {
        return false;
      }
      alarm := Due;
      return true;
    }

    /** The alarm has the document it asked for. */
    method AlarmHold()
      requires alarm.Due? && loaded
      modifies this
      ensures View() == Next(old(View()), Hold)
    {
      alarm := Holding;
    }

    /** The gate and, in the same stretch, the call for the document again, which may by now be gone. */
    method AlarmGate() returns (passed: bool)
      requires alarm.Holding?
      modifies this
      ensures passed <==> !old(live).postReset
      ensures View() == Next(old(View()), Gate)
    {
      if live.postReset {
        alarm := Off;
        return false;
      }
      alarm := Passed;
      var _ := EnsureDocEnter();
      return true;
    }

    /** The alarm with the document in hand once more. */
    method AlarmPut(advances: bool) returns (put: bool)
      requires alarm.Passed? && loaded
      modifies this
      ensures put == advances && View() == Next(old(View()), Put(advances))
    {
      alarm := Off;
      if !advances {
        return false;
      }
      recent := recent + [BackedUp(Refilled(past + recent))];
      live := live.(backupDirty := false);
      return true;
    }
  }
}
