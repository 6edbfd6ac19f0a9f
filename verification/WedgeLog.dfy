/**
 What the session room keeps of the updates it was given (edge/src/session-room.ts): the stored log and
 the buffer in front of it, over every run with drops and crashes.
 */
module WedgeLog {
  import opened Common
  import opened UpdateLog
  import opened WedgeBreak

  /** The stored log and the updates still buffered, in order. */
  function Content(r: Room): seq<Bytes> {
    r.live.log + r.pending
  }

  /** The action is a cold open that finds three deaths counted. */
  predicate Drops(r: Room, a: Action) {
    Opens(r, a) && r.live.attempts >= 3
  }

  /** What one action does to the content: a crash takes it back to what was last made durable, a drop
      empties it, a recording adds its nonempty updates, and nothing else touches it. */
  lemma ContentStep(r: Room, a: Action)
    ensures Content(Next(r, a)) ==
      if a.Crash? then r.durable.log
      else if Drops(r, a) then []
      else if a.Record? && r.loaded then Content(r) + NonEmpty(a.updates)
      else Content(r)
    ensures Next(r, a).durable.log == if a.Commit? then r.live.log else r.durable.log
  {
    if a.Gate? && Opens(r, a) {
      assert Content(Entered(r.(alarm := Passed))) == if Drops(r, a) then [] else Content(r);
    }
    if a.Crash? {
      assert r.durable.log + [] == r.durable.log;
    }
  }

  /** The room goes from one place to the next by the action between them. */
  ghost predicate Walks(rooms: seq<Room>, actions: seq<Action>, j: nat) {
    j < |actions| && j + 1 < |rooms| && rooms[j + 1] == Next(rooms[j], actions[j])
  }

  ghost predicate Calm(rooms: seq<Room>, actions: seq<Action>, j: nat) {
    Walks(rooms, actions, j) && !actions[j].Crash? && !Drops(rooms[j], actions[j])
  }

  /** The nonempty updates of the first `n` actions that were recorded, which is while the document was
      loaded. */
  ghost function RecordedBy(rooms: seq<Room>, actions: seq<Action>, n: nat): seq<Bytes>
    requires n <= |actions| && n <= |rooms|
  {
    if n == 0 then [] else RecordedBy(rooms, actions, n - 1) + RecordedAt(rooms, actions, n - 1)
  }

  /** Nothing is forgotten, repeated or reordered: over any stretch of a run without a crash or a drop,
      the content is what it was and then everything recorded since. */
  lemma {:induction false} NothingForgotten(rooms: seq<Room>, actions: seq<Action>, n: nat)
    requires n <= |actions| && n < |rooms| && forall j: nat :: j < n ==> Calm(rooms, actions, j)
    ensures Content(rooms[n]) == Content(rooms[0]) + RecordedBy(rooms, actions, n)
  {
    if n > 0 {
      NothingForgotten(rooms, actions, n - 1);
      CalmStep(rooms, actions, n - 1);
    }
  }

  ghost function RecordedAt(rooms: seq<Room>, actions: seq<Action>, j: nat): seq<Bytes>
    requires j < |actions| && j < |rooms|
  {
    if actions[j].Record? && rooms[j].loaded then NonEmpty(actions[j].updates) else []
  }

  lemma CalmStep(rooms: seq<Room>, actions: seq<Action>, j: nat)
    requires Calm(rooms, actions, j)
    ensures Content(rooms[j + 1]) == Content(rooms[j]) + RecordedAt(rooms, actions, j)
  {
    ContentStep(rooms[j], actions[j]);
  }

  /** The log as it was when storage was last made durable. */
  ghost function LastDurable(actions: seq<Action>): seq<Bytes> {
    if actions == [] then []
    else
      var init := actions[..|actions| - 1];
      if actions[|actions| - 1].Commit? then Run(init).live.log else LastDurable(init)
  }

  /** A crash at any moment leaves exactly that log, and an empty buffer. */
  lemma {:induction false} CrashReturns(actions: seq<Action>)
    ensures Run(actions).durable.log == LastDurable(actions)
    ensures Next(Run(actions), Crash).live.log == LastDurable(actions) && Next(Run(actions), Crash).pending == []
  {
    if actions != [] {
      var init, a := actions[..|actions| - 1], actions[|actions| - 1];
      CrashReturns(init);
      ContentStep(Run(init), a);
    }
  }

  /** A flush moves the whole buffer into the log, so that after the next commit a crash loses nothing. */
  lemma {:induction false} FlushedIsSafe(actions: seq<Action>)
    ensures Run(actions + [Flush, Commit, Crash]).live.log == Content(Run(actions))
  {
    var a, b := actions + [Flush], actions + [Flush, Commit];
    assert a[..|actions|] == actions && b[..|a|] == a && (actions + [Flush, Commit, Crash])[..|b|] == b;
    assert Run(b) == Next(Run(a), Commit) && Run(a) == Next(Run(actions), Flush);
    CrashReturns(b);
  }

  // ── the backup gate ──────────────────────────────────────────────────────

  /** The gate is shut exactly while nothing real was recorded since the last drop, in memory and in what
      a crash comes back to. */
  ghost predicate GateTells(r: Room) {
    (r.live.postReset <==> !Refilled(r.Story())) && (r.durable.postReset <==> !Refilled(r.past))
  }

  lemma GateAfterEntered(r: Room)
    requires GateTells(r)
    ensures GateTells(Entered(r))
  {
    if r.live.attempts >= REPLAY_CRASH_LIMIT {
      StoryPush(r.Story(), Dropped);
      assert r.past + (r.recent + [Dropped]) == r.Story() + [Dropped];
    }
  }

  lemma GateAfterCommit(r: Room)
    requires GateTells(r)
    ensures GateTells(Committed(r))
  {
    StoryPush(r.Story(), Completed);
    assert Committed(r).past + [] == Committed(r).past;
  }

  lemma GateAfterPush(r: Room, next: Room, x: Happening)
    requires GateTells(r) && next.past == r.past && next.recent == r.recent + [x] && next.durable == r.durable
    requires x.Recorded? || x.BackedUp?
    requires next.live.postReset == (if x.Recorded? then false else r.live.postReset)
    ensures GateTells(next)
  {
    StoryPush(r.Story(), x);
    assert r.past + (r.recent + [x]) == r.Story() + [x];
  }

  lemma GateStep(r: Room, a: Action)
    requires GateTells(r)
    ensures GateTells(Next(r, a))
  {
    var next := Next(r, a);
    if Opens(r, a) {
      OpensEnters(r, a);
      GateAfterEntered(if a.Gate? then r.(alarm := Passed) else r);
    } else if a.Commit? {
      GateAfterCommit(r);
    } else if a.Crash? {
      CrashStory(r, 0);
    } else if next.recent != r.recent {
      GateAfterPush(r, next, if a.Record? then Recorded else BackedUp(Refilled(r.Story())));
    } else {
      QuietGate(r, a);
    }
  }

  /** What happens without a trace in the story touches neither the gate nor storage. */
  lemma QuietGate(r: Room, a: Action)
    requires !Opens(r, a) && !a.Commit? && !a.Crash? && Next(r, a).recent == r.recent
    ensures var next := Next(r, a);
      next.past == r.past && next.durable == r.durable && next.live.postReset == r.live.postReset
  {
  }

  /** So in every run a backup waits exactly as long as the emptied room has heard nothing. */
  lemma {:induction false} GateExactly(actions: seq<Action>)
    ensures Run(actions).live.postReset <==> !Refilled(Run(actions).Story())
    ensures Run(actions).durable.postReset <==> !Refilled(Run(actions).past)
  {
    if actions == [] {
      assert FRESH.Story() == [];
    } else {
      GateExactly(actions[..|actions| - 1]);
      GateStep(Run(actions[..|actions| - 1]), actions[|actions| - 1]);
    }
  }
}
