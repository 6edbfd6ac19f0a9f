/**
 The wedge break when at most `k` opens are between their increment and their reset at once: what every
 such run keeps, and what opens that come one at a time keep beyond that.
 */
module WedgeWidth {
  import opened WedgeBreak

  // ── runs in which at most `k` opens are inside at once ───────────────────

  predicate Fits(r: Room, a: Action, k: nat) {
    Opens(r, a) ==> r.Inside() + 1 <= k
  }

  /** No open enters while `k` others are between their increment and their reset. */
  predicate Within(actions: seq<Action>, k: nat) {
    actions == []
    || (Within(actions[..|actions| - 1], k) && Fits(Run(actions[..|actions| - 1]), actions[|actions| - 1], k))
  }

  ghost predicate WidthOk(r: Room, k: nat) {
    && r.Inside() <= k
    && DropsAfter(r.Story(), 4 - k)
    && (k <= 3 && r.alarm.Passed? ==> Refilled(r.Story()))
    && (k <= 3 ==> BackupsSafe(r.Story()))
  }

  /** What one more happening does to the story's promises. */
  lemma TellOk(r: Room, next: Room, x: Happening, k: nat)
    requires WidthOk(r, k) && next.past == r.past && next.recent == r.recent + [x]
    requires x.Dropped? ==> Streak(r.Story()) >= 4 - k
    requires k <= 3 && x.BackedUp? ==> x.refilled
    ensures next.Story() == r.Story() + [x]
    ensures DropsAfter(next.Story(), 4 - k) && (k <= 3 ==> BackupsSafe(next.Story()))
    ensures Refilled(next.Story()) == (x.Recorded? || (!x.Dropped? && Refilled(r.Story())))
  {
    assert next.Story() == r.Story() + [x];
    StoryPush(r.Story(), x);
    DropsPush(r.Story(), x, 4 - k);
    SafePrefix(r.Story(), x);
  }

  lemma CommitWidth(r: Room, k: nat)
    requires Bounded(r) && WidthOk(r, k)
    ensures WidthOk(Committed(r), k)
  {
    var next, h := Committed(r), r.Story();
    assert next.Story() == next.past;
    if r.settling > 0 {
      assert next.past == h + [Completed];
      StoryPush(h, Completed);
      DropsPush(h, Completed, 4 - k);
      SafePrefix(h, Completed);
    } else {
      assert next.past == h;
    }
  }

  lemma CrashWidth(r: Room, k: nat)
    requires WidthOk(r, k)
    ensures WidthOk(Crashed(r), k)
  {
    PrefixDrops(r.past, r.recent, 4 - k);
    CrashStory(r, 4 - k);
  }

  lemma EnterWidth(r: Room, k: nat)
    requires Bounded(r) && WidthOk(r, k) && r.Inside() + 1 <= k
    ensures WidthOk(Entered(r), k)
  {
    if r.live.attempts >= REPLAY_CRASH_LIMIT {
      CalmStreak(r.past, r.recent);
      TellOk(r, Entered(r), Dropped, k);
    } else {
      assert Entered(r).Story() == r.Story();
    }
  }

  /** An open gate means real state since the last drop, so passing it promises nothing new. */
  lemma PassWidth(r: Room, k: nat)
    requires Bounded(r) && Gated(r) && WidthOk(r, k) && r.alarm.Holding? && !r.live.postReset
    ensures Bounded(r.(alarm := Passed)) && WidthOk(r.(alarm := Passed), k)
  {
    assert r.(alarm := Passed).Story() == r.Story();
  }

  lemma StepWidth(r: Room, a: Action, k: nat)
    requires Bounded(r) && Gated(r) && WidthOk(r, k) && Fits(r, a, k)
    ensures WidthOk(Next(r, a), k)
  {
    var next := Next(r, a);
    if a.Commit? {
      CommitWidth(r, k);
    } else if a.Crash? {
      CrashWidth(r, k);
    } else if Opens(r, a) {
      OpensEnters(r, a);
      if a.Gate? {
        PassWidth(r, k);
      }
      EnterWidth(if a.Gate? then r.(alarm := Passed) else r, k);
    } else if next.recent != r.recent {
      TellOk(r, next, next.recent[|r.recent|], k);
    } else {
      assert next.Story() == r.Story();
    }
  }

  /** With at most `k` opens inside, every drop follows at least 4 - k deaths in a row, and up to three
      no backup is put between a drop and the next real update. */
  lemma {:induction false} WidthSafe(actions: seq<Action>, k: nat)
    requires Within(actions, k)
    ensures WidthOk(Run(actions), k)
  {
    if actions != [] {
      var init := actions[..|actions| - 1];
      WidthSafe(init, k);
      CountBounded(init);
      StepWidth(Run(init), actions[|actions| - 1], k);
    }
  }

  // ── opens one at a time ──────────────────────────────────────────────────

  /** The stored count is exactly the deaths in a row, plus the open under way. */
  ghost predicate Counted(r: Room) {
    && r.durable.attempts == Streak(r.past) + r.synced + r.settling
    && r.live.attempts == (if r.settling > 0 then 0 else Streak(r.past) + r.synced) + r.waiting
  }

  ghost predicate OneByOne(r: Room) {
    Counted(r) && r.Inside() <= 1 && r.settling <= 1 && (r.synced > 0 ==> r.settling == 0)
  }

  lemma CommitCounted(r: Room)
    requires Bounded(r) && OneByOne(r)
    ensures OneByOne(Committed(r))
  {
    CalmStreak(r.past, r.recent);
    if r.settling > 0 {
      assert Committed(r).past == r.Story() + [Completed];
      StoryPush(r.Story(), Completed);
    }
  }

  lemma EnterCounted(r: Room)
    requires OneByOne(r) && r.Inside() == 0
    ensures OneByOne(Entered(r))
  {
  }

  lemma StepCounted(r: Room, a: Action)
    requires Bounded(r) && OneByOne(r) && Fits(r, a, 1)
    ensures OneByOne(Next(r, a))
  {
    if a.Commit? {
      CommitCounted(r);
    } else if a.Crash? {
      CrashBounded(r);
    } else if Opens(r, a) {
      OpensEnters(r, a);
      EnterCounted(if a.Gate? then r.(alarm := Passed) else r);
    }
  }

  lemma {:induction false} RunCounted(actions: seq<Action>)
    requires Within(actions, 1)
    ensures OneByOne(Run(actions))
  {
    if actions != [] {
      var init := actions[..|actions| - 1];
      RunCounted(init);
      CountBounded(init);
      StepCounted(Run(init), actions[|actions| - 1]);
    }
  }

  lemma {:induction false} WithinMore(actions: seq<Action>, k: nat, more: nat)
    requires Within(actions, k) && k <= more
    ensures Within(actions, more)
  {
    if actions != [] {
      WithinMore(actions[..|actions| - 1], k, more);
    }
  }

  lemma EnterDrops(r: Room)
    requires !r.loaded
    ensures Next(r, Enter).recent == r.recent + [Dropped] <==> r.live.attempts >= REPLAY_CRASH_LIMIT
  {
    assert |r.recent| < |r.recent + [Dropped]|;
  }

  /** Opens one at a time drop the log if and only if three have died in a row, unless one that has
      already cleared the count is still waiting for its second sync. */
  lemma {:induction false} DropsExactly(actions: seq<Action>, r: Room)
    requires Within(actions, 1) && r == Run(actions) && !r.loaded && r.Inside() == 0
    ensures Next(r, Enter).recent == r.recent + [Dropped] <==>
      Streak(r.past) >= REPLAY_CRASH_LIMIT && r.settling == 0
  {
    RunCounted(actions);
    DropsFrom(r);
  }

  lemma DropsFrom(r: Room)
    requires Counted(r) && !r.loaded && r.Inside() == 0
    ensures Next(r, Enter).recent == r.recent + [Dropped] <==>
      Streak(r.past) >= REPLAY_CRASH_LIMIT && r.settling == 0
  {
    EnterDrops(r);
  }

  // ── rooms in which an open with nothing to read is not killed ────────────

  /** A replay would find nothing to read. */
  predicate Blank(r: Room) {
    r.live.log == [] && r.pending == []
  }

  predicate Plausible(r: Room, a: Action) {
    a.Crash? && r.synced + r.settling > 0 ==> !Blank(r)
  }

  predicate PlausibleRun(actions: seq<Action>) {
    actions == []
    || (PlausibleRun(actions[..|actions| - 1]) && Plausible(Run(actions[..|actions| - 1]), actions[|actions| - 1]))
  }

  ghost predicate Recovering(r: Room) {
    && Streak(r.past) <= REPLAY_CRASH_LIMIT
    && (Streak(r.past) == REPLAY_CRASH_LIMIT && r.Inside() + r.settling > 0 ==> Blank(r))
  }

  lemma RecoveringStep(r: Room, a: Action)
    requires Bounded(r) && OneByOne(r) && Recovering(r) && Fits(r, a, 1) && Plausible(r, a)
    ensures Recovering(Next(r, a))
  {
    if a.Commit? {
      CalmStreak(r.past, r.recent);
      StoryPush(r.Story(), Completed);
    } else if a.Crash? {
      CrashBounded(r);
    }
  }

  lemma {:induction false} RunRecovers(actions: seq<Action>)
    requires Within(actions, 1) && PlausibleRun(actions)
    ensures Recovering(Run(actions))
  {
    if actions != [] {
      var init := actions[..|actions| - 1];
      RunRecovers(init);
      CountBounded(init);
      RunCounted(init);
      RecoveringStep(Run(init), actions[|actions| - 1]);
    }
  }
}
