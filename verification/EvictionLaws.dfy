/** The eviction pass (crates/engine/src/doc_host.rs) over the documents' own fields and the caps in numbers. */
module EvictionLaws {
  import opened Common
  import CommandDrain
  import opened Eviction

  /** The estimates of all open documents added up. */
  ghost function Total(handles: Handles): nat {
    if handles.Keys == {} then 0
    else
      var c :| c in handles.Keys;
      handles[c].estimate + Total(handles - {c})
  }

  lemma {:induction false} TotalWithout(handles: Handles, c: ChatId)
    requires c in handles
    ensures Total(handles) == handles[c].estimate + Total(handles - {c})
    decreases |handles|
  {
    var d :| d in handles.Keys && Total(handles) == handles[d].estimate + Total(handles - {d});
    if c != d {
      TotalWithout(handles - {d}, c);
      TotalWithout(handles - {c}, d);
      assert handles - {d} - {c} == handles - {c} - {d};
    }
  }

  /** The documents of `handles` among the `n` oldest. */
  ghost function Among(byAge: seq<Aged>, handles: Handles, n: nat): Handles
    requires n <= |byAge|
  {
    map c | c in handles && (exists i :: 0 <= i < n && byAge[i].chat == c) :: handles[c]
  }

  lemma {:induction false} EstimateAmong(byAge: seq<Aged>, handles: Handles, n: nat)
    requires n <= |byAge| && forall i, j :: 0 <= i < j < |byAge| ==> byAge[i].chat != byAge[j].chat
    ensures Estimate(byAge, handles, n) == Total(Among(byAge, handles, n))
  {
    if n == 0 {
      assert Among(byAge, handles, 0).Keys == {};
    } else {
      EstimateAmong(byAge, handles, n - 1);
      var c := byAge[n - 1].chat;
      var now, before := Among(byAge, handles, n), Among(byAge, handles, n - 1);
      AmongStep(byAge, handles, n);
      if c in handles {
        TotalWithout(now, c);
      }
    }
  }

  lemma AmongStep(byAge: seq<Aged>, handles: Handles, n: nat)
    requires 0 < n <= |byAge| && forall i, j :: 0 <= i < j < |byAge| ==> byAge[i].chat != byAge[j].chat
    ensures var c, now, before := byAge[n - 1].chat, Among(byAge, handles, n), Among(byAge, handles, n - 1);
      if c in handles then c in now && now[c] == handles[c] && now - {c} == before else now == before
  {
    var c, now, before := byAge[n - 1].chat, Among(byAge, handles, n), Among(byAge, handles, n - 1);
    forall d ensures d in now - {c} <==> d in before {
      if d in now && d != c {
        var i :| 0 <= i < n && byAge[i].chat == d;
        assert i < n - 1;
      }
      if d in before {
        var i :| 0 <= i < n - 1 && byAge[i].chat == d;
        assert byAge[i].chat != byAge[n - 1].chat;
      }
    }
    assert (now - {c}).Keys == before.Keys;
    assert now - {c} == before;
    if c !in handles {
      assert now - {c} == now;
    }
  }

  /** Somebody watches the document or writes it, or its host still owes a pending command. */
  ghost predicate Busy(h: Handle, ledger: set<string>) {
    || h.watchers >= 1
    || h.docRefs >= 2
    || (h.hosted && match h.commands
                    case None => true
                    case Some(cs) => exists i :: 0 <= i < |cs| && cs[i].status == CommandDrain.Pending && cs[i].id !in ledger)
  }

  lemma BusyIsPinned(h: Handle, ledger: set<string>)
    ensures Busy(h, ledger) <==> Pinned(h, ledger)
  {
    if h.commands.Some? {
      var cs := h.commands.value;
      forall i | 0 <= i < |cs|
        ensures CommandDrain.Todo(cs, ledger, i) <==> cs[i].status == CommandDrain.Pending && cs[i].id !in ledger
      {
      }
    }
  }

  /** What is open once the documents among the `n` oldest that are not busy are closed. */
  ghost function LeftAfter(byAge: seq<Aged>, handles: Handles, ledger: set<string>, n: nat): Handles
    requires n <= |byAge|
  {
    map c | c in handles && (Busy(handles[c], ledger) || forall i :: 0 <= i < n ==> byAge[i].chat != c) :: handles[c]
  }

  /** The pass goes on at the `j`-th oldest: it was idle for thirty seconds, and what is still open is
      more than twelve documents or more than eighty megabytes. */
  ghost predicate GoesOn(byAge: seq<Aged>, handles: Handles, ledger: set<string>, clock: nat -> int, j: nat)
    requires j < |byAge|
  {
    var left := LeftAfter(byAge, handles, ledger, j);
    clock(j) - byAge[j].lastAccess >= 30_000 && (|left| > 12 || Total(left) > 83_886_080)
  }

  lemma {:induction false} RestIsLeft(byAge: seq<Aged>, handles: Handles, ledger: set<string>, n: nat)
    requires OldestFirst(byAge, handles) && n <= |byAge|
    ensures Rest(byAge, handles, ledger, n) == LeftAfter(byAge, handles, ledger, n)
  {
    var rest, left := Rest(byAge, handles, ledger, n), LeftAfter(byAge, handles, ledger, n);
    RestWithin(byAge, handles, ledger, n);
    forall c | c in handles
      ensures c in rest <==> c in left
      ensures c in rest ==> rest[c] == handles[c]
    {
      var i := PlaceOf(byAge, handles, c);
      RestAt(byAge, handles, ledger, n, i);
      BusyIsPinned(handles[c], ledger);
    }
  }

  lemma {:induction false} OverIs(byAge: seq<Aged>, handles: Handles, left: Handles)
    requires OldestFirst(byAge, handles) && left.Keys <= handles.Keys
    ensures Over(byAge, left) <==> |left| > 12 || Total(left) > 83_886_080
  {
    EstimateAmong(byAge, left, |byAge|);
    forall c | c in left ensures c in Among(byAge, left, |byAge|) {
      assert c in handles;
    }
    assert Among(byAge, left, |byAge|) == left;
  }

  lemma {:induction false} GoesOnIs(byAge: seq<Aged>, handles: Handles, ledger: set<string>, clock: nat -> int, j: nat)
    requires OldestFirst(byAge, handles) && j < |byAge|
    ensures GoesOn(byAge, handles, ledger, clock, j)
            <==> !Young(clock(j), byAge[j].lastAccess) && Over(byAge, Rest(byAge, handles, ledger, j))
  {
    RestIsLeft(byAge, handles, ledger, j);
    RestWithin(byAge, handles, ledger, j);
    OverIs(byAge, handles, Rest(byAge, handles, ledger, j));
  }

  ghost predicate GoesOnUpTo(byAge: seq<Aged>, handles: Handles, ledger: set<string>, clock: nat -> int, n: nat)
    requires n <= |byAge|
  {
    forall j :: 0 <= j < n ==> GoesOn(byAge, handles, ledger, clock, j)
  }

  lemma {:induction false} ReachedGoesOn(byAge: seq<Aged>, handles: Handles, ledger: set<string>, clock: nat -> int,
                                         n: nat)
    requires OldestFirst(byAge, handles) && n <= |byAge| && Reached(byAge, handles, ledger, clock, n)
    ensures GoesOnUpTo(byAge, handles, ledger, clock, n)
  {
    forall j | 0 <= j < n ensures GoesOn(byAge, handles, ledger, clock, j) {
      ReachedAt(byAge, handles, ledger, clock, n, j);
      GoesOnIs(byAge, handles, ledger, clock, j);
    }
  }

  /** The test of the pass at the `j`-th oldest, in the pass's own terms. */
  ghost predicate Clears(byAge: seq<Aged>, handles: Handles, ledger: set<string>, clock: nat -> int, j: nat)
    requires OldestFirst(byAge, handles) && j < |byAge|
  {
    !Young(clock(j), byAge[j].lastAccess) && Over(byAge, Rest(byAge, handles, ledger, j))
  }

  lemma {:induction false} ClearsReaches(byAge: seq<Aged>, handles: Handles, ledger: set<string>, clock: nat -> int,
                                         n: nat)
    requires OldestFirst(byAge, handles) && n <= |byAge|
    requires forall j :: 0 <= j < n ==> Clears(byAge, handles, ledger, clock, j)
    ensures Reached(byAge, handles, ledger, clock, n)
  {
    if n > 0 {
      ClearsReaches(byAge, handles, ledger, clock, n - 1);
      assert Clears(byAge, handles, ledger, clock, n - 1);
    }
  }

  lemma {:induction false} GoesOnReaches(byAge: seq<Aged>, handles: Handles, ledger: set<string>, clock: nat -> int,
                                         n: nat)
    requires OldestFirst(byAge, handles) && n <= |byAge| && GoesOnUpTo(byAge, handles, ledger, clock, n)
    ensures Reached(byAge, handles, ledger, clock, n)
  {
    forall j | 0 <= j < n ensures Clears(byAge, handles, ledger, clock, j) {
      GoesOnIs(byAge, handles, ledger, clock, j);
    }
    ClearsReaches(byAge, handles, ledger, clock, n);
  }

  /** Where a pass stops and what it leaves, over the documents' own fields: it goes on at every place
      before its stop and not at the stop, and closes exactly the documents before it that are not busy. */
  lemma PassExactly(byAge: seq<Aged>, handles: Handles, ledger: set<string>, clock: nat -> int, stop: nat, end: Handles)
    requires OldestFirst(byAge, handles) && stop <= |byAge|
    ensures Stopped(byAge, handles, ledger, clock, stop, end) <==>
      && GoesOnUpTo(byAge, handles, ledger, clock, stop)
      && (stop < |byAge| ==> !GoesOn(byAge, handles, ledger, clock, stop))
      && end == LeftAfter(byAge, handles, ledger, stop)
  {
    if Reached(byAge, handles, ledger, clock, stop) {
      ReachedGoesOn(byAge, handles, ledger, clock, stop);
    } else if GoesOnUpTo(byAge, handles, ledger, clock, stop) {
      GoesOnReaches(byAge, handles, ledger, clock, stop);
    }
    RestIsLeft(byAge, handles, ledger, stop);
    if stop < |byAge| {
      GoesOnIs(byAge, handles, ledger, clock, stop);
    }
  }
}
