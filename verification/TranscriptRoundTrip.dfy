/**
 What a viewer that applies a diff ends up with: never a desync, always the right entries,
 and exactly the source if and only if the entries the diff did not re-send stand in order.
 */
module TranscriptRoundTrip {
  import opened Common
  import opened MessageParts
  import opened ListEdits
  import opened TranscriptDelta

  ghost predicate UniqueIds(es: seq<Entry>) {
    Distinct(Ids(es))
  }

  /** No two text or commentary parts of the entry share an id. */
  ghost predicate UniqueTexts(e: Entry) {
    forall i, j :: 0 <= i < j < |e.parts| && e.parts[i].Textual() && e.parts[j].Textual() ==>
      e.parts[i].id != e.parts[j].id
  }

  /** Which entries of `next` travel whole. */
  ghost function Sent(prev: seq<Entry>, next: seq<Entry>): (moved: seq<bool>)
    ensures |moved| == |next|
    ensures forall i :: 0 <= i < |next| ==> moved[i] == PlanFor(prev, next, i).Send?
  {
    seq(|next|, i requires 0 <= i < |next| => PlanFor(prev, next, i).Send?)
  }

  /** Entries not re-sent whole keep their relative order. A caller can check this before diffing. */
  ghost predicate KeptInOrder(prev: seq<Entry>, next: seq<Entry>) {
    UntouchedInOrder(Ids(prev), Ids(next), Sent(prev, next))
  }

  /** Entries present on both sides keep their relative order: what a list without moves gives. */
  ghost predicate SurvivorsInOrder(prev: seq<Entry>, next: seq<Entry>) {
    forall i, j :: 0 <= i < j < |next| && next[i].id in Ids(prev) && next[j].id in Ids(prev) ==>
      Pos(Ids(prev), next[i].id) < Pos(Ids(prev), next[j].id)
  }

  // ── the text-append fast path ────────────────────────────────────────────

  ghost predicate AppendsAt(prev: Entry, next: Entry, a: TextAppend, n: nat, k: nat)
    requires n <= |prev.parts| == |next.parts|
  {
    && k < n
    && SameTextKind(prev.parts[k], next.parts[k]) && prev.parts[k].id == next.parts[k].id
    && prev.parts[k].text <= next.parts[k].text
    && a == TextAppend(next.id, next.parts[k].id, next.parts[k].text[|prev.parts[k].text|..], |next.parts[k].text|)
    && (forall m :: 0 <= m < n && m != k ==> prev.parts[m] == next.parts[m])
  }

  lemma {:induction false} ScanFound(prev: Entry, next: Entry, n: nat)
    requires n <= |prev.parts| == |next.parts| && Scan(prev, next, n).Some?
    ensures var found := Scan(prev, next, n).value;
      && (found.None? ==> forall m :: 0 <= m < n ==> prev.parts[m] == next.parts[m])
      && (found.Some? ==> exists k: nat :: AppendsAt(prev, next, found.value, n, k))
  {
    if n > 0 {
      ScanFound(prev, next, n - 1);
      var found := Scan(prev, next, n).value;
      if found.Some? {
        if prev.parts[n - 1] == next.parts[n - 1] {
          var k: nat :| AppendsAt(prev, next, found.value, n - 1, k);
          assert AppendsAt(prev, next, found.value, n, k);
        } else {
          assert AppendsAt(prev, next, found.value, n, n - 1);
        }
      }
    }
  }

  /** Appending the tail to the old entry rebuilds the new one. */
  lemma AppendRebuilds(prev: Entry, next: Entry)
    requires TextAppendFor(prev, next).Some? && UniqueTexts(prev)
    ensures AppendToEntry(prev, TextAppendFor(prev, next).value) == Ok(next)
  {
    var a := TextAppendFor(prev, next).value;
    ScanFound(prev, next, |prev.parts|);
    var k: nat :| AppendsAt(prev, next, a, |prev.parts|, k);
    var f := FindText(prev.parts, a.part, 0);
    assert f == k;
    var grown := Grow(prev.parts[k], a.text);
    assert grown == next.parts[k];
    assert prev.parts[k := grown] == next.parts;
  }

  // ── removals ─────────────────────────────────────────────────────────────

  lemma PosAppend(s: seq<Id>, z: Id, x: Id)
    ensures x in s ==> Pos(s + [z], x) == Pos(s, x)
    ensures x !in s && x == z ==> Pos(s + [z], x) == |s|
  {
    var t := s + [z];
    assert forall k :: 0 <= k < |s| ==> t[k] == s[k];
    assert t[|s|] == z;
    if x in s {
      assert t[Pos(s, x)] == x;
    }
  }

  ghost predicate OrderAgrees(have: seq<Id>, cur: seq<Id>) {
    forall x, y :: x in cur && y in cur ==> SameOrder(have, cur, x, y)
  }

  /** Appending the same last id to both lists keeps the agreement. */
  lemma OrderExtends(have: seq<Id>, cur: seq<Id>, z: Id, x: Id, y: Id)
    requires forall i :: i in cur ==> i in have
    requires OrderAgrees(have, cur) && z !in have && x in cur + [z] && y in cur + [z]
    ensures SameOrder(have + [z], cur + [z], x, y)
  {
    if x in cur && y in cur {
      assert SameOrder(have, cur, x, y);
    }
    PosAppend(have, z, x);
    PosAppend(have, z, y);
    PosAppend(cur, z, x);
    PosAppend(cur, z, y);
  }

  lemma OrderExtendsAll(have: seq<Id>, cur: seq<Id>, z: Id)
    requires forall i :: i in cur ==> i in have
    requires OrderAgrees(have, cur) && z !in have && Distinct(cur)
    ensures OrderAgrees(have + [z], cur + [z]) && Distinct(cur + [z])
  {
    assert z !in cur;
    forall x, y | x in cur + [z] && y in cur + [z]
      ensures SameOrder(have + [z], cur + [z], x, y)
    {
      OrderExtends(have, cur, z, x, y);
    }
  }

  lemma OrderSkips(have: seq<Id>, cur: seq<Id>, z: Id)
    requires forall i :: i in cur ==> i in have
    requires OrderAgrees(have, cur)
    ensures OrderAgrees(have + [z], cur)
  {
    forall x, y | x in cur && y in cur
      ensures SameOrder(have + [z], cur, x, y)
    {
      assert SameOrder(have, cur, x, y);
      PosAppend(have, z, x);
      PosAppend(have, z, y);
    }
  }

  lemma {:induction false} RetainIds(es: seq<Entry>, gone: seq<Id>)
    ensures forall x :: x in Ids(Retain(es, gone)) <==> x in Ids(es) && x !in gone
    ensures forall e :: e in Retain(es, gone) ==> e in es
  {
    if es != [] {
      var init, last := es[..|es| - 1], es[|es| - 1];
      assert es == init + [last];
      assert Ids(es) == Ids(init) + [last.id];
      RetainIds(init, gone);
      var kept := Retain(init, gone);
      assert Ids(kept + [last]) == Ids(kept) + [last.id];
      assert Retain(es, gone) == if last.id in gone then kept else kept + [last];
      forall x
        ensures x in Ids(Retain(es, gone)) <==> x in Ids(es) && x !in gone
      {
        assert x in Ids(kept) <==> x in Ids(init) && x !in gone;
      }
    }
  }

  lemma InitUnique(es: seq<Entry>)
    requires UniqueIds(es) && es != []
    ensures Ids(es) == Ids(es[..|es| - 1]) + [es[|es| - 1].id]
    ensures UniqueIds(es[..|es| - 1]) && es[|es| - 1].id !in Ids(es[..|es| - 1])
  {
    var init := es[..|es| - 1];
    assert forall k :: 0 <= k < |init| ==> Ids(init)[k] == Ids(es)[k];
    assert Ids(es)[|init|] == es[|es| - 1].id;
  }

  lemma {:induction false} RetainStep(es: seq<Entry>, gone: seq<Id>)
    requires UniqueIds(es) && es != []
    requires UniqueIds(Retain(es[..|es| - 1], gone))
    requires OrderAgrees(Ids(es[..|es| - 1]), Ids(Retain(es[..|es| - 1], gone)))
    ensures UniqueIds(Retain(es, gone))
    ensures OrderAgrees(Ids(es), Ids(Retain(es, gone)))
  {
    var init, last := es[..|es| - 1], es[|es| - 1];
    var have, cur := Ids(init), Ids(Retain(init, gone));
    assert Ids(es) == have + [last.id] && last.id !in have by {
      InitUnique(es);
    }
    assert forall i :: i in cur ==> i in have by {
      RetainIds(init, gone);
    }
    RetainSnoc(es, gone);
    if last.id in gone {
      OrderSkips(have, cur, last.id);
    } else {
      OrderExtendsAll(have, cur, last.id);
    }
  }

  lemma RetainSnoc(es: seq<Entry>, gone: seq<Id>)
    requires es != []
    ensures var init, last := es[..|es| - 1], es[|es| - 1];
      Ids(Retain(es, gone)) == if last.id in gone then Ids(Retain(init, gone)) else Ids(Retain(init, gone)) + [last.id]
  {
    var init, last := es[..|es| - 1], es[|es| - 1];
    if last.id in gone {
      assert Retain(es, gone) == Retain(init, gone);
    }
  }

  lemma {:induction false} RetainFacts(es: seq<Entry>, gone: seq<Id>)
    requires UniqueIds(es)
    ensures UniqueIds(Retain(es, gone))
    ensures OrderAgrees(Ids(es), Ids(Retain(es, gone)))
  {
    if es != [] {
      var init := es[..|es| - 1];
      InitUnique(es);
      RetainFacts(init, gone);
      RetainStep(es, gone);
    }
  }

  lemma {:induction false} MissingMembers(es: seq<Entry>, ids: seq<Id>, n: nat)
    requires n <= |es|
    ensures forall x :: x in MissingFrom(es, ids, n) <==> x in Ids(es)[..n] && x !in ids
  {
    if n > 0 {
      MissingMembers(es, ids, n - 1);
      assert Ids(es)[..n] == Ids(es)[..n - 1] + [es[n - 1].id];
    }
  }

  ghost function Survivors(prev: seq<Entry>, next: seq<Entry>): seq<Entry> {
    Retain(prev, MissingFrom(prev, Ids(next), |prev|))
  }

  lemma SurvivorsReady(prev: seq<Entry>, next: seq<Entry>)
    requires UniqueIds(prev)
    ensures Inv(Ids(prev), Ids(next), Sent(prev, next), Ids(Survivors(prev, next)), 0)
    ensures forall e :: e in Survivors(prev, next) ==> e in prev
  {
    MissingMembers(prev, Ids(next), |prev|);
    RetainFacts(prev, MissingFrom(prev, Ids(next), |prev|));
    RetainIds(prev, MissingFrom(prev, Ids(next), |prev|));
    assert Ids(prev)[..|prev|] == Ids(prev);
    var cur := Ids(Survivors(prev, next));
    forall x, y | Still(Ids(prev), Ids(next), Sent(prev, next), 0, x) && Still(Ids(prev), Ids(next), Sent(prev, next), 0, y)
      ensures SameOrder(Ids(prev), cur, x, y)
    {
      assert x in cur && y in cur;
    }
  }

  // ── the upsert pass ──────────────────────────────────────────────────────

  lemma DropIds(es: seq<Entry>, id: string)
    ensures Ids(DropId(es, id)) == Without(Ids(es), id)
  {
  }

  lemma DropKeeps(es: seq<Entry>, id: string, k: nat)
    requires UniqueIds(es) && k < |DropId(es, id)|
    ensures DropId(es, id)[k] in es && DropId(es, id)[k].id != id
  {
    WithoutDistinct(Ids(es), id);
    DropIds(es, id);
    assert Ids(DropId(es, id))[k] == DropId(es, id)[k].id;
  }

  lemma IdsInsert(es: seq<Entry>, k: nat, e: Entry)
    requires k <= |es|
    ensures Ids(es[..k] + [e] + es[k..]) == InsertAt(Ids(es), k, e.id)
  {
  }

  lemma InsertHead(es: seq<Entry>, e: Entry)
    ensures es[..0] + [e] + es[0..] == [e] + es
  {
  }

  /** An upsert that finds its anchor puts the entry into the list without its old version. */
  lemma UpsertShape(es: seq<Entry>, u: Upsert) returns (k: nat)
    requires Move(Ids(es), u.after, u.entry.id).Some?
    ensures var rest := DropId(es, u.entry.id);
      && k <= |rest|
      && ApplyUpsert(es, u) == Ok(rest[..k] + [u.entry] + rest[k..])
      && Move(Ids(es), u.after, u.entry.id).value == InsertAt(Ids(rest), k, u.entry.id)
  {
    var rest := DropId(es, u.entry.id);
    DropIds(es, u.entry.id);
    match u.after {
      case None =>
        k := 0;
        InsertHead(rest, u.entry);
      case Some(anchor) =>
        k := Pos(Ids(rest), anchor) + 1;
    }
  }

  lemma UpsertMoves(es: seq<Entry>, u: Upsert)
    requires Move(Ids(es), u.after, u.entry.id).Some?
    ensures ApplyUpsert(es, u).Ok?
    ensures Ids(ApplyUpsert(es, u).value) == Move(Ids(es), u.after, u.entry.id).value
  {
    var k := UpsertShape(es, u);
    IdsInsert(DropId(es, u.entry.id), k, u.entry);
  }

  lemma UpsertKeeps(es: seq<Entry>, u: Upsert, e: Entry)
    requires UniqueIds(es) && Move(Ids(es), u.after, u.entry.id).Some?
    requires ApplyUpsert(es, u).Ok? && e in ApplyUpsert(es, u).value
    ensures e == u.entry || (e in es && e.id != u.entry.id)
  {
    var rest := DropId(es, u.entry.id);
    var k := UpsertShape(es, u);
    if e != u.entry {
      assert e in rest;
      var m :| 0 <= m < |rest| && rest[m] == e;
      DropKeeps(es, u.entry.id, m);
    }
  }

  ghost predicate Resent(prev: seq<Entry>, next: seq<Entry>, i: nat, e: Entry)
    requires i <= |next|
  {
    exists j :: 0 <= j < i && Sent(prev, next)[j] && e == next[j]
  }

  /** Every entry is either a re-sent one already in place or an old one not yet touched. */
  ghost predicate Accounted(prev: seq<Entry>, next: seq<Entry>, i: nat, e: Entry)
    requires i <= |next|
  {
    || Resent(prev, next, i, e)
    || (e in prev && Still(Ids(prev), Ids(next), Sent(prev, next), i, e.id))
  }

  /** The state of the pass after `i` steps. */
  ghost predicate PassOk(prev: seq<Entry>, next: seq<Entry>, cur: seq<Entry>, i: nat)
    requires i <= |next|
  {
    && Inv(Ids(prev), Ids(next), Sent(prev, next), Ids(cur), i)
    && forall e :: e in cur ==> Accounted(prev, next, i, e)
  }

  lemma AccountedStep(prev: seq<Entry>, next: seq<Entry>, i: nat, e: Entry)
    requires UniqueIds(next) && i < |next| && Accounted(prev, next, i, e)
    requires Sent(prev, next)[i] ==> e.id != next[i].id
    ensures Accounted(prev, next, i + 1, e)
  {
    if Resent(prev, next, i, e) {
      var j :| 0 <= j < i && Sent(prev, next)[j] && e == next[j];
      assert Resent(prev, next, i + 1, e);
    } else {
      StillStep(Ids(prev), Ids(next), Sent(prev, next), i, e.id);
    }
  }

  lemma PassSend(prev: seq<Entry>, next: seq<Entry>, cur: seq<Entry>, i: nat)
    requires UniqueIds(next) && i < |next| && Sent(prev, next)[i] && PassOk(prev, next, cur, i)
    ensures ApplyUpsert(cur, Upsert(Before(Ids(next), i), next[i])).Ok?
    ensures PassOk(prev, next, ApplyUpsert(cur, Upsert(Before(Ids(next), i), next[i])).value, i + 1)
  {
    MoveStep(Ids(prev), Ids(next), Sent(prev, next), Ids(cur), i);
    var u := Upsert(Before(Ids(next), i), next[i]);
    UpsertMoves(cur, u);
    forall e | e in ApplyUpsert(cur, u).value
      ensures Accounted(prev, next, i + 1, e)
    {
      UpsertKeeps(cur, u, e);
      if e != next[i] {
        AccountedStep(prev, next, i, e);
      }
    }
  }

  lemma PassKeep(prev: seq<Entry>, next: seq<Entry>, cur: seq<Entry>, i: nat)
    requires UniqueIds(next) && i < |next| && !Sent(prev, next)[i] && PassOk(prev, next, cur, i)
    ensures PassOk(prev, next, cur, i + 1)
  {
    assert Ids(next)[i] in Ids(prev);
    KeepStep(Ids(prev), Ids(next), Sent(prev, next), Ids(cur), i);
    forall e | e in cur
      ensures Accounted(prev, next, i + 1, e)
    {
      AccountedStep(prev, next, i, e);
    }
  }

  /** One more planned entry adds its upsert, if it travels whole, at the end of the pass. */
  lemma UpsertsSnoc(prev: seq<Entry>, next: seq<Entry>, es: seq<Entry>, cur: seq<Entry>, i: nat)
    requires i < |next| && ApplyUpserts(es, Upserts(prev, next, i)) == Ok(cur)
    ensures ApplyUpserts(es, Upserts(prev, next, i + 1))
         == if Sent(prev, next)[i] then ApplyUpsert(cur, Upsert(Before(Ids(next), i), next[i])) else Ok(cur)
  {
    var us := Upserts(prev, next, i);
    if Sent(prev, next)[i] {
      assert Upserts(prev, next, i + 1)[..|us|] == us;
    } else {
      assert Upserts(prev, next, i + 1) == us;
    }
  }

  /** The pass applied the upserts of the first `i` entries and stands at `cur`. */
  ghost predicate Passed(prev: seq<Entry>, next: seq<Entry>, es: seq<Entry>, cur: seq<Entry>, i: nat) {
    i <= |next| && ApplyUpserts(es, Upserts(prev, next, i)) == Ok(cur) && PassOk(prev, next, cur, i)
  }

  lemma PassStep(prev: seq<Entry>, next: seq<Entry>, es: seq<Entry>, cur: seq<Entry>, i: nat) returns (after: seq<Entry>)
    requires UniqueIds(next) && i < |next| && Passed(prev, next, es, cur, i)
    ensures Passed(prev, next, es, after, i + 1)
  {
    UpsertsSnoc(prev, next, es, cur, i);
    after := cur;
    if Sent(prev, next)[i] {
      PassSend(prev, next, cur, i);
      after := ApplyUpsert(cur, Upsert(Before(Ids(next), i), next[i])).value;
    } else {
      PassKeep(prev, next, cur, i);
    }
  }

  /** A pass that can take each of its steps reaches its end. */
  lemma {:induction false} StepsReach(at: (nat, seq<Entry>) -> bool, n: nat, cur: seq<Entry>, i: nat)
    requires i <= n && at(i, cur)
    requires forall j: nat, c :: j < n && at(j, c) ==> Reaches(at, j + 1)
    ensures Reaches(at, n)
    decreases n - i
  {
    if i < n {
      assert Reaches(at, i + 1);
      var after :| at(i + 1, after);
      StepsReach(at, n, after, i + 1);
    }
  }

  ghost predicate Reaches(at: (nat, seq<Entry>) -> bool, j: nat) {
    exists cur :: at(j, cur)
  }

  ghost function PassAt(prev: seq<Entry>, next: seq<Entry>, es: seq<Entry>): (nat, seq<Entry>) -> bool {
    (i: nat, cur: seq<Entry>) => Passed(prev, next, es, cur, i)
  }

  lemma PassMoves(prev: seq<Entry>, next: seq<Entry>, es: seq<Entry>, cur: seq<Entry>, i: nat)
    requires UniqueIds(next) && i < |next| && PassAt(prev, next, es)(i, cur)
    ensures Reaches(PassAt(prev, next, es), i + 1)
  {
    var after := PassStep(prev, next, es, cur, i);
    assert PassAt(prev, next, es)(i + 1, after);
  }

  lemma PassEnds(prev: seq<Entry>, next: seq<Entry>, es: seq<Entry>)
    requires UniqueIds(next) && PassAt(prev, next, es)(0, es)
    ensures Reaches(PassAt(prev, next, es), |next|)
  {
    var at := PassAt(prev, next, es);
    forall j: nat, c | j < |next| && at(j, c) ensures Reaches(at, j + 1) {
      PassMoves(prev, next, es, c, j);
    }
    StepsReach(at, |next|, es, 0);
  }

  lemma {:induction false} UpsertsRun(prev: seq<Entry>, next: seq<Entry>)
    requires UniqueIds(prev) && UniqueIds(next)
    ensures ApplyUpserts(Survivors(prev, next), Upserts(prev, next, |next|)).Ok?
    ensures PassOk(prev, next, ApplyUpserts(Survivors(prev, next), Upserts(prev, next, |next|)).value, |next|)
  {
    var es := Survivors(prev, next);
    FreshPass(prev, next);
    assert Passed(prev, next, es, es, 0);
    PassEnds(prev, next, es);
    var end :| PassAt(prev, next, es)(|next|, end);
    assert Passed(prev, next, es, end, |next|);
  }

  lemma FreshPass(prev: seq<Entry>, next: seq<Entry>)
    requires UniqueIds(prev)
    ensures PassOk(prev, next, Survivors(prev, next), 0)
  {
    SurvivorsReady(prev, next);
    forall e | e in Survivors(prev, next)
      ensures Accounted(prev, next, 0, e)
    {
      var k :| 0 <= k < |Survivors(prev, next)| && Survivors(prev, next)[k] == e;
      assert Ids(Survivors(prev, next))[k] in Ids(Survivors(prev, next));
    }
  }

  // ── the append pass ──────────────────────────────────────────────────────

  ghost predicate Finished(next: seq<Entry>, placed: seq<Entry>, i: nat, e: Entry) {
    && e.id in Ids(next)
    && (if Pos(Ids(next), e.id) < i then e == next[Pos(Ids(next), e.id)] else e in placed)
  }

  lemma {:induction false} OldEntryAt(prev: seq<Entry>, e: Entry)
    requires UniqueIds(prev) && e in prev
    ensures LastPos(prev, e.id).Some? && prev[LastPos(prev, e.id).value] == e
  {
    var k :| 0 <= k < |prev| && prev[k] == e;
    assert Ids(prev)[k] == e.id;
  }

  /** The entry standing for `next[i]` after the upsert pass. */
  lemma PlacedEntry(prev: seq<Entry>, next: seq<Entry>, i: nat, e: Entry)
    requires UniqueIds(prev) && UniqueIds(next) && i < |next|
    requires Accounted(prev, next, |next|, e) && e.id == next[i].id
    ensures PlanFor(prev, next, i).Append? || e == next[i]
    ensures PlanFor(prev, next, i).Append? ==>
      e in prev && TextAppendFor(e, next[i]) == Some(PlanFor(prev, next, i).tail)
  {
    PosOfIndex(Ids(next), i);
    if e in prev && Still(Ids(prev), Ids(next), Sent(prev, next), |next|, e.id) {
      OldEntryAt(prev, e);
    } else {
      var j :| 0 <= j < |next| && Sent(prev, next)[j] && e == next[j];
      PosOfIndex(Ids(next), j);
    }
  }

  lemma GrowOne(es: seq<Entry>, at: nat, a: TextAppend, grown: Entry)
    requires UniqueIds(es) && at < |es| && es[at].id == a.entry && AppendToEntry(es[at], a) == Ok(grown)
    ensures ApplyAppend(es, a) == Ok(es[at := grown])
    ensures Ids(es[at := grown]) == Ids(es)
    ensures forall e :: e in es[at := grown] ==> e == grown || (e in es && e.id != grown.id)
  {
    PosOfIndex(Ids(es), at);
    var out := es[at := grown];
    forall e | e in out
      ensures e == grown || (e in es && e.id != grown.id)
    {
      var k :| 0 <= k < |out| && out[k] == e;
      if k != at {
        assert Ids(es)[k] != Ids(es)[at];
      }
    }
  }

  /** What the upsert pass hands over. */
  ghost predicate Placed(prev: seq<Entry>, next: seq<Entry>, placed: seq<Entry>) {
    && UniqueIds(prev) && UniqueIds(next) && UniqueIds(placed)
    && (forall e :: e in prev ==> UniqueTexts(e))
    && (forall x :: x in Ids(placed) <==> x in Ids(next))
    && (forall e :: e in placed ==> Accounted(prev, next, |next|, e))
  }

  lemma NothingFinished(next: seq<Entry>, placed: seq<Entry>, e: Entry)
    requires (forall x :: x in Ids(placed) <==> x in Ids(next)) && e in placed
    ensures Finished(next, placed, 0, e)
  {
    var k :| 0 <= k < |placed| && placed[k] == e;
    assert Ids(placed)[k] in Ids(placed);
  }

  lemma AppendsSnoc(prev: seq<Entry>, next: seq<Entry>, placed: seq<Entry>, cur: seq<Entry>, n: nat)
    requires n < |next| && ApplyAppends(placed, Appends(prev, next, n)) == Ok(cur)
    ensures ApplyAppends(placed, Appends(prev, next, n + 1))
         == match PlanFor(prev, next, n) case Append(tail) => ApplyAppend(cur, tail) case _ => Ok(cur)
  {
    var tails := Appends(prev, next, n);
    match PlanFor(prev, next, n) {
      case Append(tail) => assert (tails + [tail])[..|tails|] == tails;
      case _ => assert Appends(prev, next, n + 1) == tails;
    }
  }

  /** The entry that step `n` of the append pass looks at. */
  lemma EntryAt(prev: seq<Entry>, next: seq<Entry>, placed: seq<Entry>, cur: seq<Entry>, n: nat) returns (at: nat)
    requires Placed(prev, next, placed) && n < |next| && Ids(cur) == Ids(placed)
    requires forall e :: e in cur ==> Finished(next, placed, n, e)
    ensures at < |cur| && cur[at].id == next[n].id && Accounted(prev, next, |next|, cur[at])
  {
    at := Pos(Ids(cur), next[n].id);
    assert Ids(next)[n] in Ids(placed);
    PosOfIndex(Ids(next), n);
    assert cur[at] in cur && Finished(next, placed, n, cur[at]);
  }

  /** A tail grows the old entry into the new one. */
  lemma TailGrows(prev: seq<Entry>, next: seq<Entry>, n: nat, e: Entry)
    requires UniqueIds(prev) && UniqueIds(next) && n < |next| && (forall p :: p in prev ==> UniqueTexts(p))
    requires Accounted(prev, next, |next|, e) && e.id == next[n].id && PlanFor(prev, next, n).Append?
    ensures AppendToEntry(e, PlanFor(prev, next, n).tail) == Ok(next[n])
    ensures PlanFor(prev, next, n).tail.entry == e.id
  {
    PlacedEntry(prev, next, n, e);
    AppendRebuilds(e, next[n]);
    TailNames(e, next[n]);
  }

  lemma FinishedNext(prev: seq<Entry>, next: seq<Entry>, placed: seq<Entry>, n: nat, e: Entry)
    requires Placed(prev, next, placed) && n < |next| && Finished(next, placed, n, e)
    requires !PlanFor(prev, next, n).Append?
    ensures Finished(next, placed, n + 1, e)
  {
    PosOfIndex(Ids(next), n);
    if e.id != next[n].id {
      FinishedStep(next, placed, n, e);
    } else {
      PlacedEntry(prev, next, n, e);
    }
  }

  ghost predicate AllFinished(next: seq<Entry>, placed: seq<Entry>, i: nat, cur: seq<Entry>) {
    Ids(cur) == Ids(placed) && forall e :: e in cur ==> Finished(next, placed, i, e)
  }

  lemma AppendGrows(prev: seq<Entry>, next: seq<Entry>, placed: seq<Entry>, cur: seq<Entry>, n: nat)
    requires Placed(prev, next, placed) && n < |next| && AllFinished(next, placed, n, cur)
    requires PlanFor(prev, next, n).Append?
    ensures var r := ApplyAppend(cur, PlanFor(prev, next, n).tail);
      r.Ok? && AllFinished(next, placed, n + 1, r.value)
  {
    var at := EntryAt(prev, next, placed, cur, n);
    TailGrows(prev, next, n, cur[at]);
    GrowOne(cur, at, PlanFor(prev, next, n).tail, next[n]);
    PosOfIndex(Ids(next), n);
    var grown, m := cur[at := next[n]], n + 1;
    forall e | e in grown
      ensures Finished(next, placed, m, e)
    {
      if e != next[n] {
        FinishedStep(next, placed, n, e);
      }
    }
  }

  lemma {:induction false} AppendsRun(prev: seq<Entry>, next: seq<Entry>, placed: seq<Entry>, i: nat)
    requires Placed(prev, next, placed) && i <= |next|
    ensures var r := ApplyAppends(placed, Appends(prev, next, i)); r.Ok? && AllFinished(next, placed, i, r.value)
  {
    if i == 0 {
      forall e | e in placed
        ensures Finished(next, placed, 0, e)
      {
        NothingFinished(next, placed, e);
      }
    } else {
      var n := i - 1;
      AppendsRun(prev, next, placed, n);
      var cur := ApplyAppends(placed, Appends(prev, next, n)).value;
      AppendsSnoc(prev, next, placed, cur, n);
      if PlanFor(prev, next, n).Append? {
        AppendGrows(prev, next, placed, cur, n);
      } else {
        forall e | e in cur
          ensures Finished(next, placed, i, e)
        {
          FinishedNext(prev, next, placed, n, e);
        }
      }
    }
  }

  lemma TailNames(prev: Entry, next: Entry)
    requires TextAppendFor(prev, next).Some?
    ensures TextAppendFor(prev, next).value.entry == prev.id == next.id
  {
    ScanFound(prev, next, |prev.parts|);
  }

  lemma FinishedStep(next: seq<Entry>, placed: seq<Entry>, n: nat, e: Entry)
    requires UniqueIds(next) && n < |next| && Finished(next, placed, n, e) && e.id != next[n].id
    ensures Finished(next, placed, n + 1, e)
  {
    PosOfIndex(Ids(next), n);
  }

  // ── main results ─────────────────────────────────────────────────────────

  /** Applying a diff never desyncs and never loses or invents an entry; it gives back `next` if and
      only if the diff was a reset or the entries it did not re-send keep their order. */
  lemma DiffRoundTrip(prev: seq<Entry>, next: seq<Entry>)
    requires UniqueIds(prev) && UniqueIds(next)
    requires forall e :: e in prev ==> UniqueTexts(e)
    ensures ApplyFrame(prev, Diff(prev, next)).Ok?
    ensures var got := ApplyFrame(prev, Diff(prev, next)).value;
      && |got| == |next|
      && (forall e :: e in got ==> e in next)
      && (got == next <==> Diff(prev, next).Reset? || KeptInOrder(prev, next))
  {
    if Diff(prev, next).Delta? {
      UpsertsRun(prev, next);
      var placed := ApplyUpserts(Survivors(prev, next), Upserts(prev, next, |next|)).value;
      var got := TailsFinish(prev, next, placed);
    }
  }

  /** From the placed entries on: the tails finish them, and order is all that can be wrong. */
  lemma TailsFinish(prev: seq<Entry>, next: seq<Entry>, placed: seq<Entry>) returns (got: seq<Entry>)
    requires UniqueIds(prev) && UniqueIds(next) && PassOk(prev, next, placed, |next|)
    requires forall e :: e in prev ==> UniqueTexts(e)
    ensures ApplyAppends(placed, Appends(prev, next, |next|)) == Ok(got) && |got| == |next|
    ensures forall e :: e in got ==> e in next
    ensures got == next <==> KeptInOrder(prev, next)
  {
    assert Ids(next)[..|next|] == Ids(next);
    KeptIsOld(prev, next);
    PassReaches(Ids(prev), Ids(next), Sent(prev, next), Ids(placed));
    AppendsRun(prev, next, placed, |next|);
    got := ApplyAppends(placed, Appends(prev, next, |next|)).value;
    assert |Ids(got)| == |got|;
    forall k | 0 <= k < |got|
      ensures got[k] in next
      ensures got[k] == next[Pos(Ids(next), got[k].id)]
    {
      assert Finished(next, placed, |next|, got[k]);
    }
    SameIdsSameEntries(got, next);
  }

  lemma KeptIsOld(prev: seq<Entry>, next: seq<Entry>)
    ensures forall i :: 0 <= i < |next| && !Sent(prev, next)[i] ==> Ids(next)[i] in Ids(prev)
  {
  }

  lemma SameIdsSameEntries(got: seq<Entry>, next: seq<Entry>)
    requires UniqueIds(next)
    requires forall k :: 0 <= k < |got| ==> got[k].id in Ids(next) && got[k] == next[Pos(Ids(next), got[k].id)]
    ensures got == next <==> Ids(got) == Ids(next)
  {
    if Ids(got) == Ids(next) {
      assert |Ids(got)| == |got|;
      forall k | 0 <= k < |got|
        ensures got[k] == next[k]
      {
        assert Ids(got)[k] == Ids(next)[k];
        PosOfIndex(Ids(next), k);
      }
    }
  }

  lemma SurvivorsImplyKept(prev: seq<Entry>, next: seq<Entry>)
    requires SurvivorsInOrder(prev, next)
    ensures KeptInOrder(prev, next)
  {
    KeptIsOld(prev, next);
  }

  /** The transcript a viewer holds after a reset to `sources[0]` and one diff per later source. */
  function Watch(sources: seq<seq<Entry>>): Result<seq<Entry>, Desync>
    requires sources != []
  {
    if |sources| == 1 then ApplyFrame([], Reset(sources[0]))
    else
      match Watch(sources[..|sources| - 1])
      case Err(e) => Err(e)
      case Ok(held) => ApplyFrame(held, Diff(sources[|sources| - 2], sources[|sources| - 1]))
  }

  ghost predicate NextInOrder(sources: seq<seq<Entry>>, k: nat)
    requires k + 1 < |sources|
  {
    SurvivorsInOrder(sources[k], sources[k + 1])
  }

  /** A viewer fed a reset and then any stream of diffs always equals the source. */
  lemma {:induction false} WatchFollowsSource(sources: seq<seq<Entry>>)
    requires sources != []
    requires forall k :: 0 <= k < |sources| ==> UniqueIds(sources[k])
    requires forall k, e :: 0 <= k < |sources| && e in sources[k] ==> UniqueTexts(e)
    requires forall k: nat :: k + 1 < |sources| ==> NextInOrder(sources, k)
    ensures Watch(sources) == Ok(sources[|sources| - 1])
  {
    var n := |sources| - 1;
    if n > 0 {
      var init := sources[..n];
      assert forall k :: 0 <= k < n ==> init[k] == sources[k];
      forall k: nat | k + 1 < |init| ensures NextInOrder(init, k) {
        assert NextInOrder(sources, k);
      }
      WatchFollowsSource(init);
      assert NextInOrder(sources, n - 1);
      assert init[|init| - 1] == sources[n - 1];
      DiffRoundTrip(sources[n - 1], sources[n]);
      SurvivorsImplyKept(sources[n - 1], sources[n]);
    }
  }

  function Bare(id: string): Entry {
    Entry(id, Assistant, [], 0, "dev", None, None)
  }

  lemma {:induction false} LastPosUnique(es: seq<Entry>, i: nat)
    requires UniqueIds(es) && i < |es|
    ensures LastPos(es, es[i].id) == Some(i)
  {
    assert Ids(es)[i] in Ids(es);
    var at := LastPos(es, es[i].id).value;
    assert Ids(es)[at] == Ids(es)[i];
  }

  /** Swapping two blocks is the failing family: the frame applies, the count check passes, and the
      viewer silently holds another order. */
  lemma SwappedBlocksDiverge()
    ensures var a, b, c, d := Bare("a"), Bare("b"), Bare("c"), Bare("d");
      var prev, next := [a, b, c, d], [c, d, a, b];
      && UniqueIds(prev) && UniqueIds(next)
      && ApplyFrame(prev, Diff(prev, next)).Ok?
      && ApplyFrame(prev, Diff(prev, next)).value != next
  {
    var a, b, c, d := Bare("a"), Bare("b"), Bare("c"), Bare("d");
    var prev, next := [a, b, c, d], [c, d, a, b];
    assert Ids(prev) == ["a", "b", "c", "d"] && Ids(next) == ["c", "d", "a", "b"];
    LastPosUnique(prev, 3);
    LastPosUnique(prev, 1);
    assert PlanFor(prev, next, 1).Keep?;
    assert PlanFor(prev, next, 3).Keep?;
    PosOfIndex(Ids(prev), 3);
    PosOfIndex(Ids(prev), 1);
    assert !KeptInOrder(prev, next);
    DiffRoundTrip(prev, next);
  }
}
