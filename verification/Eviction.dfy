/**
 Closing idle documents (`evict_over_budget` and `pinned` in crates/engine/src/doc_host.rs), as one
 pass nobody interrupts.
 */
module Eviction {
  import opened Common
  import CommandDrain

  const WARM_DOC_CAP: nat := 12
  const EVICT_MIN_IDLE_MS: int := 30_000
  const DOC_LRU_BYTE_BUDGET: nat := 80 * 1024 * 1024

  type ChatId = string

  /** An open document; `commands` is None when its ledger cannot be read. */
  datatype Handle = Handle(lastAccess: int, estimate: nat, watchers: nat, docRefs: nat, hosted: bool,
                           commands: Option<seq<CommandDrain.Command>>)

  /** Watched, being written, or owed work. */
  predicate Pinned(h: Handle, processed: set<string>) {
    || h.watchers > 0
    || h.docRefs > 1
    || (h.hosted && (h.commands.None? || exists i ::
         0 <= i < |h.commands.value| && CommandDrain.Todo(h.commands.value, processed, i)))
  }

  type Handles = map<ChatId, Handle>

  datatype Aged = Aged(lastAccess: int, chat: ChatId)

  /** `byAge` lists every handle once, least recently touched first. */
  ghost predicate OldestFirst(byAge: seq<Aged>, handles: Handles) {
    && (forall i :: 0 <= i < |byAge| ==>
         byAge[i].chat in handles && byAge[i].lastAccess == handles[byAge[i].chat].lastAccess)
    && (forall i, j :: 0 <= i < j < |byAge| ==>
         byAge[i].chat != byAge[j].chat && byAge[i].lastAccess <= byAge[j].lastAccess)
    && (forall c :: c in handles ==> exists i :: 0 <= i < |byAge| && byAge[i].chat == c)
  }

  function Estimate(byAge: seq<Aged>, handles: Handles, n: nat): nat
    requires n <= |byAge|
  {
    if n == 0 then 0
    else
      var c := byAge[n - 1].chat;
      Estimate(byAge, handles, n - 1) + if c in handles then handles[c].estimate else 0
  }

  predicate Over(byAge: seq<Aged>, handles: Handles) {
    |handles| > WARM_DOC_CAP || Estimate(byAge, handles, |byAge|) > DOC_LRU_BYTE_BUDGET
  }

  predicate Young(now: int, lastAccess: int) {
    now - lastAccess < EVICT_MIN_IDLE_MS
  }

  /** The handles once the unpinned ones among the `n` oldest are gone. */
  ghost function Rest(byAge: seq<Aged>, handles: Handles, processed: set<string>, n: nat): Handles
    requires OldestFirst(byAge, handles) && n <= |byAge|
    decreases n
  {
    if n == 0 then handles
    else
      var c := byAge[n - 1].chat;
      if Pinned(handles[c], processed) then Rest(byAge, handles, processed, n - 1)
      else Rest(byAge, handles, processed, n - 1) - {c}
  }

  lemma {:induction false} RestAt(byAge: seq<Aged>, handles: Handles, processed: set<string>, n: nat, i: nat)
    requires OldestFirst(byAge, handles) && n <= |byAge| && i < |byAge|
    ensures var rest := Rest(byAge, handles, processed, n);
      var c := byAge[i].chat;
      && (c in rest <==> i >= n || Pinned(handles[c], processed))
      && (c in rest ==> rest[c] == handles[c])
  {
    if n > 0 {
      RestAt(byAge, handles, processed, n - 1, i);
      assert i != n - 1 ==> byAge[i].chat != byAge[n - 1].chat;
    }
  }

  lemma {:induction false} RestWithin(byAge: seq<Aged>, handles: Handles, processed: set<string>, n: nat)
    requires OldestFirst(byAge, handles) && n <= |byAge|
    ensures Rest(byAge, handles, processed, n).Keys <= handles.Keys
  {
    if n > 0 {
      RestWithin(byAge, handles, processed, n - 1);
    }
  }

  function Without(handles: Handles, c: ChatId, processed: set<string>): Handles {
    if c in handles && !Pinned(handles[c], processed) then handles - {c} else handles
  }

  lemma RestStep(byAge: seq<Aged>, handles: Handles, processed: set<string>, n: nat)
    requires OldestFirst(byAge, handles) && n < |byAge|
    ensures var rest := Rest(byAge, handles, processed, n);
      var c := byAge[n].chat;
      Rest(byAge, handles, processed, n + 1) == Without(rest, c, processed)
  {
    RestAt(byAge, handles, processed, n, n);
  }

  /** The pass got past the `n` oldest: each was idle long enough and the caps were still exceeded. */
  ghost predicate Reached(byAge: seq<Aged>, handles: Handles, processed: set<string>, clock: nat -> int, n: nat)
    requires OldestFirst(byAge, handles) && n <= |byAge|
  {
    n == 0
    || (Reached(byAge, handles, processed, clock, n - 1)
        && !Young(clock(n - 1), byAge[n - 1].lastAccess)
        && Over(byAge, Rest(byAge, handles, processed, n - 1)))
  }

  lemma {:induction false} ReachedAt(byAge: seq<Aged>, handles: Handles, processed: set<string>, clock: nat -> int,
                                     n: nat, i: nat)
    requires OldestFirst(byAge, handles) && i < n <= |byAge| && Reached(byAge, handles, processed, clock, n)
    ensures !Young(clock(i), byAge[i].lastAccess) && Over(byAge, Rest(byAge, handles, processed, i))
  {
    if i < n - 1 {
      ReachedAt(byAge, handles, processed, clock, n - 1, i);
    }
  }

  /** Where and why the pass stopped: exactly the unpinned documents before `stop` are gone. */
  ghost predicate Stopped(byAge: seq<Aged>, handles: Handles, processed: set<string>, clock: nat -> int,
                          stop: nat, end: Handles)
  {
    && OldestFirst(byAge, handles)
    && stop <= |byAge|
    && end == Rest(byAge, handles, processed, stop)
    && Reached(byAge, handles, processed, clock, stop)
    && (stop == |byAge| || Young(clock(stop), byAge[stop].lastAccess) || !Over(byAge, end))
  }

  class DocHost {
    var handles: Handles
    var processed: set<string>

    constructor (handles: Handles, processed: set<string>)
      ensures this.handles == handles && this.processed == processed
    {
      this.handles, this.processed := handles, processed;
    }

    /** One turn of the loop; `done` means the pass returns here. */
    method EvictOne(byAge: seq<Aged>, i: nat, now: int) returns (done: bool)
      requires i < |byAge|
      modifies this`handles
      ensures done <==> Young(now, byAge[i].lastAccess) || !Over(byAge, old(handles))
      ensures handles == if done then old(handles) else Without(old(handles), byAge[i].chat, processed)
    {
      if now - byAge[i].lastAccess < EVICT_MIN_IDLE_MS {
        return true;
      }
      var count, estimate := |handles|, Estimate(byAge, handles, |byAge|);
      if count <= WARM_DOC_CAP && estimate <= DOC_LRU_BYTE_BUDGET {
        return true;
      }
      var chat := byAge[i].chat;
      if chat in handles && !Pinned(handles[chat], processed) {
        handles := handles - {chat};
      }
      return false;
    }

    /** `clock(i)` is the time read for the `i`-th oldest document. */
    method EvictOverBudget(byAge: seq<Aged>, clock: nat -> int) returns (ghost stop: nat)
      requires OldestFirst(byAge, handles)
      modifies this`handles
      ensures Stopped(byAge, old(handles), processed, clock, stop, handles)
    {
      ghost var before := handles;
      var i := 0;
      var done := false;
      while i < |byAge| && !done
        invariant i <= |byAge| && handles == Rest(byAge, before, processed, i)
        invariant Reached(byAge, before, processed, clock, i)
        invariant done ==> i < |byAge| && (Young(clock(i), byAge[i].lastAccess) || !Over(byAge, handles))
        decreases |byAge| - i, !done
      {
        RestStep(byAge, before, processed, i);
        done := EvictOne(byAge, i, clock(i));
        if !done {
          i := i + 1;
        }
      }
      stop := i;
    }
  }

  /** A document goes only if it is not pinned and was idle long enough, every older unpinned one goes
      with it, and the caps were still exceeded without those. */
  lemma {:induction false} EvictedFairly(byAge: seq<Aged>, handles: Handles, processed: set<string>,
                                         clock: nat -> int, stop: nat,
                                         end: Handles, i: nat, j: nat)
    requires Stopped(byAge, handles, processed, clock, stop, end)
    requires j <= i < |byAge| && byAge[i].chat !in end
    ensures !Pinned(handles[byAge[i].chat], processed) && !Young(clock(i), byAge[i].lastAccess)
    ensures byAge[j].chat in end ==> Pinned(handles[byAge[j].chat], processed)
    ensures Over(byAge, Rest(byAge, handles, processed, i)) && byAge[i].chat in Rest(byAge, handles, processed, i)
  {
    RestAt(byAge, handles, processed, stop, i);
    RestAt(byAge, handles, processed, stop, j);
    RestAt(byAge, handles, processed, i, i);
    ReachedAt(byAge, handles, processed, clock, stop, i);
  }

  /** The pass ends within both caps, or with every open document pinned or touched too recently. */
  lemma EvictionGuarantee(byAge: seq<Aged>, handles: Handles, processed: set<string>, clock: nat -> int,
                          stop: nat, end: Handles, c: ChatId)
    requires Stopped(byAge, handles, processed, clock, stop, end) && c in end
    ensures c in handles && end[c] == handles[c]
    ensures !Over(byAge, end) || Pinned(end[c], processed)
         || (stop < |byAge| && Young(clock(stop), end[c].lastAccess))
  {
    RestWithin(byAge, handles, processed, stop);
    var i := PlaceOf(byAge, handles, c);
    RestAt(byAge, handles, processed, stop, i);
    if stop < |byAge| && i >= stop {
      YoungerAfter(byAge, handles, stop, i);
    }
  }

  lemma PlaceOf(byAge: seq<Aged>, handles: Handles, c: ChatId) returns (i: nat)
    requires OldestFirst(byAge, handles) && c in handles
    ensures i < |byAge| && byAge[i].chat == c
  {
    i :| 0 <= i < |byAge| && byAge[i].chat == c;
  }

  lemma YoungerAfter(byAge: seq<Aged>, handles: Handles, i: nat, j: nat)
    requires OldestFirst(byAge, handles) && i <= j < |byAge|
    ensures byAge[j].chat in handles && byAge[i].lastAccess <= handles[byAge[j].chat].lastAccess
  {
  }
}
