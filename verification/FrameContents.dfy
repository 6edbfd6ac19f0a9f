/**
 What travels in a transcript frame (crates/doc/src/transcript_delta.rs), told by the two
 transcripts alone: which entries go whole, which by their text tail, which not at all, and when the
 whole transcript is sent instead.
 */
module FrameContents {
  import opened Common
  import opened MessageParts
  import opened ListEdits
  import opened Picking
  import opened TranscriptDelta
  import opened TranscriptRoundTrip

  /** The entry is the old one but for one text part, which grew by a tail. */
  ghost predicate GrewAt(was: Entry, now: Entry, k: nat) {
    && k < |was.parts| == |now.parts|
    && now == was.(parts := was.parts[k := now.parts[k]])
    && ((was.parts[k].Text? && now.parts[k].Text?) || (was.parts[k].Commentary? && now.parts[k].Commentary?))
    && was.parts[k].id == now.parts[k].id
    && was.parts[k].text < now.parts[k].text
  }

  ghost predicate Grew(was: Entry, now: Entry) {
    exists k: nat :: GrewAt(was, now, k)
  }

  /** The tail by which part `k` grew, with the length it must reach. */
  ghost function Tail(was: Entry, now: Entry, k: nat): TextAppend
    requires GrewAt(was, now, k)
  {
    TextAppend(now.id, now.parts[k].id, now.parts[k].text[|was.parts[k].text|..], |now.parts[k].text|)
  }

  // ── the fast path, exactly ───────────────────────────────────────────────

  lemma {:induction false} ScanSame(was: Entry, now: Entry, n: nat)
    requires n <= |was.parts| == |now.parts| && forall m :: 0 <= m < n ==> was.parts[m] == now.parts[m]
    ensures Scan(was, now, n) == Some(None)
  {
    if n > 0 {
      ScanSame(was, now, n - 1);
    }
  }

  lemma {:induction false} ScanGrew(was: Entry, now: Entry, n: nat, k: nat)
    requires GrewAt(was, now, k) && k < n <= |was.parts|
    ensures Scan(was, now, n) == Some(Some(Tail(was, now, k)))
  {
    assert forall m :: 0 <= m < |was.parts| && m != k ==> was.parts[m] == now.parts[m];
    if n - 1 > k {
      ScanGrew(was, now, n - 1, k);
    } else {
      ScanSame(was, now, n - 1);
    }
  }

  /** The fast path is taken exactly when one text part grew and nothing else changed, and then it
      carries exactly that part's tail. */
  lemma TailExactly(was: Entry, now: Entry)
    ensures TextAppendFor(was, now).Some? <==> Grew(was, now)
    ensures forall k: nat :: GrewAt(was, now, k) ==> TextAppendFor(was, now) == Some(Tail(was, now, k))
  {
    forall k: nat | GrewAt(was, now, k)
      ensures TextAppendFor(was, now) == Some(Tail(was, now, k))
    {
      ScanGrew(was, now, |was.parts|, k);
    }
    if TextAppendFor(was, now).Some? {
      FastPathGrew(was, now);
    }
  }

  lemma FastPathGrew(was: Entry, now: Entry)
    requires TextAppendFor(was, now).Some?
    ensures Grew(was, now)
  {
    var n := |was.parts|;
    ScanFound(was, now, n);
    var a := TextAppendFor(was, now).value;
    var k: nat :| AppendsAt(was, now, a, n, k);
    if was.parts[k] == now.parts[k] {
      ScanSame(was, now, n);
    } else {
      assert now.parts == was.parts[k := now.parts[k]];
      assert GrewAt(was, now, k);
    }
  }

  // ── what becomes of one entry ────────────────────────────────────────────

  /** `at` is the place of the id in the old transcript, the last one if it repeats. */
  ghost predicate OldPlace(prev: seq<Entry>, id: string, at: nat) {
    at < |prev| && prev[at].id == id && forall j :: at < j < |prev| ==> prev[j].id != id
  }

  /** Both entries come first, or both follow entries with the same id. */
  ghost predicate SameNeighbour(prev: seq<Entry>, at: nat, next: seq<Entry>, i: nat)
    requires at < |prev| && i < |next|
  {
    (at == 0 && i == 0) || (at > 0 && i > 0 && prev[at - 1].id == next[i - 1].id)
  }

  ghost predicate GrewFrom(prev: seq<Entry>, next: seq<Entry>, i: nat, at: nat)
    requires i < |next|
  {
    OldPlace(prev, next[i].id, at) && SameNeighbour(prev, at, next, i) && Grew(prev[at], next[i])
  }

  /** The entry must travel whole: it is new, follows another entry than before, or changed in
      another way than by growth of one text part. */
  ghost predicate Whole(prev: seq<Entry>, next: seq<Entry>, i: nat)
    requires i < |next|
  {
    forall at: nat :: OldPlace(prev, next[i].id, at) && SameNeighbour(prev, at, next, i) ==>
      next[i] != prev[at] && !Grew(prev[at], next[i])
  }

  lemma {:induction false} LastPosIs(es: seq<Entry>, id: string)
    ensures forall at: nat :: OldPlace(es, id, at) <==> LastPos(es, id) == Some(at)
  {
    if es != [] {
      var init := es[..|es| - 1];
      LastPosIs(init, id);
      if es[|es| - 1].id != id {
        forall at: nat
          ensures OldPlace(es, id, at) <==> OldPlace(init, id, at)
        {
        }
      }
    }
  }

  lemma NeighbourIsBefore(prev: seq<Entry>, at: nat, next: seq<Entry>, i: nat)
    requires at < |prev| && i < |next|
    ensures SameNeighbour(prev, at, next, i) <==> Before(Ids(prev), at) == Before(Ids(next), i)
  {
  }

  lemma PlanKnown(prev: seq<Entry>, next: seq<Entry>, i: nat, at: nat)
    requires i < |next| && OldPlace(prev, next[i].id, at)
    ensures PlanFor(prev, next, i) ==
      if !SameNeighbour(prev, at, next, i) then Send
      else if next[i] == prev[at] then Keep
      else match TextAppendFor(prev[at], next[i])
        case None => Send
        case Some(tail) => Append(tail)
  {
    LastPosIs(prev, next[i].id);
    NeighbourIsBefore(prev, at, next, i);
  }

  lemma OnePlace(prev: seq<Entry>, id: string, a: nat, b: nat)
    requires OldPlace(prev, id, a) && OldPlace(prev, id, b)
    ensures a == b
  {
  }

  lemma Unchanged(was: Entry, now: Entry)
    requires was == now
    ensures !Grew(was, now)
  {
  }

  /** An entry goes whole, by a tail, or not at all, as the two transcripts alone decide. */
  lemma PlanExactly(prev: seq<Entry>, next: seq<Entry>, i: nat)
    requires i < |next|
    ensures PlanFor(prev, next, i).Send? <==> Whole(prev, next, i)
    ensures PlanFor(prev, next, i).Append? <==> GrewHere(prev, next, i)
    ensures PlanFor(prev, next, i).Append? ==> PlanFor(prev, next, i).tail == TailHere(prev, next, i)
  {
    LastPosIs(prev, next[i].id);
    if LastPos(prev, next[i].id).Some? {
      var at := LastPos(prev, next[i].id).value;
      PlanKnown(prev, next, i, at);
      TailExactly(prev[at], next[i]);
      if next[i] == prev[at] {
        Unchanged(prev[at], next[i]);
      }
      if SameNeighbour(prev, at, next, i) && Grew(prev[at], next[i]) {
        assert GrewFrom(prev, next, i, at);
      }
    }
  }

  /** The entry stands where it stood and one of its text parts grew. */
  ghost predicate GrewHere(prev: seq<Entry>, next: seq<Entry>, i: nat)
    requires i < |next|
  {
    exists at: nat :: GrewFrom(prev, next, i, at)
  }

  ghost function TailHere(prev: seq<Entry>, next: seq<Entry>, i: nat): TextAppend
    requires i < |next| && GrewHere(prev, next, i)
  {
    var at: nat :| GrewFrom(prev, next, i, at);
    var k: nat :| GrewAt(prev[at], next[i], k);
    Tail(prev[at], next[i], k)
  }

  // ── the frame ────────────────────────────────────────────────────────────

  /** Which entries travel whole. */
  ghost function Wholes(prev: seq<Entry>, next: seq<Entry>): (marks: seq<bool>)
    ensures |marks| == |next| && forall i :: 0 <= i < |next| ==> marks[i] == Whole(prev, next, i)
  {
    seq(|next|, i requires 0 <= i < |next| => Whole(prev, next, i))
  }

  /** Of which entries one text part grew. */
  ghost function Growths(prev: seq<Entry>, next: seq<Entry>): (marks: seq<bool>)
    ensures |marks| == |next| && forall i :: 0 <= i < |next| ==> marks[i] == GrewHere(prev, next, i)
  {
    seq(|next|, i requires 0 <= i < |next| => GrewHere(prev, next, i))
  }

  ghost predicate Present(es: seq<Entry>, id: string) {
    exists j :: 0 <= j < |es| && es[j].id == id
  }

  /** Which old entries are gone. */
  ghost function Losses(prev: seq<Entry>, next: seq<Entry>): (marks: seq<bool>)
    ensures |marks| == |prev| && forall i :: 0 <= i < |prev| ==> marks[i] == !Present(next, prev[i].id)
  {
    seq(|prev|, i requires 0 <= i < |prev| => !Present(next, prev[i].id))
  }

  /** The entry at place `i`, behind its neighbour. */
  ghost function Placing(next: seq<Entry>, i: nat): Upsert
    requires i < |next|
  {
    Upsert(if i == 0 then None else Some(next[i - 1].id), next[i])
  }

  lemma UpsertsPush(prev: seq<Entry>, next: seq<Entry>, n: nat)
    requires n < |next|
    ensures Upserts(prev, next, n + 1)
            == Upserts(prev, next, n) + if Whole(prev, next, n) then [Placing(next, n)] else []
  {
    PlanExactly(prev, next, n);
  }

  lemma AppendsPush(prev: seq<Entry>, next: seq<Entry>, n: nat)
    requires n < |next|
    ensures Appends(prev, next, n + 1)
            == Appends(prev, next, n) + if GrewHere(prev, next, n) then [TailHere(prev, next, n)] else []
  {
    PlanExactly(prev, next, n);
  }

  ghost predicate ListsWhole(next: seq<Entry>, at: seq<nat>, upsert: seq<Upsert>) {
    |upsert| == |at| && forall j :: 0 <= j < |at| ==> at[j] < |next| && upsert[j] == Placing(next, at[j])
  }

  ghost predicate ListsTails(prev: seq<Entry>, next: seq<Entry>, at: seq<nat>, append: seq<TextAppend>) {
    && |append| == |at|
    && forall j :: 0 <= j < |at| ==>
         at[j] < |next| && GrewHere(prev, next, at[j]) && append[j] == TailHere(prev, next, at[j])
  }

  ghost predicate ListsGone(prev: seq<Entry>, at: seq<nat>, remove: seq<Id>) {
    |remove| == |at| && forall j :: 0 <= j < |at| ==> at[j] < |prev| && remove[j] == prev[at[j]].id
  }

  ghost function UpsertLists(prev: seq<Entry>, next: seq<Entry>): (lists: seq<seq<Upsert>>)
    ensures |lists| == |next| + 1 && forall k :: 0 <= k <= |next| ==> lists[k] == Upserts(prev, next, k)
  {
    seq(|next| + 1, k requires 0 <= k <= |next| => Upserts(prev, next, k))
  }

  ghost function Placings(next: seq<Entry>): (items: seq<Upsert>)
    ensures |items| == |next| && forall k :: 0 <= k < |next| ==> items[k] == Placing(next, k)
  {
    seq(|next|, k requires 0 <= k < |next| => Placing(next, k))
  }

  lemma UpsertsAdd(prev: seq<Entry>, next: seq<Entry>, j: nat)
    requires j < |next|
    ensures Adds(UpsertLists(prev, next), Wholes(prev, next), Placings(next), j)
  {
    UpsertsPush(prev, next, j);
    assert Wholes(prev, next)[j] == Whole(prev, next, j);
  }

  lemma {:induction false} UpsertsAre(prev: seq<Entry>, next: seq<Entry>)
    ensures ListsWhole(next, Marked(Wholes(prev, next), |next|), Upserts(prev, next, |next|))
  {
    var lists, marks, items := UpsertLists(prev, next), Wholes(prev, next), Placings(next);
    forall j: nat | j < |next| ensures Adds(lists, marks, items, j) {
      UpsertsAdd(prev, next, j);
    }
    Built(lists, marks, items, |next|);
    ListedWhole(next, marks, lists[|next|]);
  }

  lemma {:induction false} ListedWhole(next: seq<Entry>, marks: seq<bool>, upsert: seq<Upsert>)
    requires |marks| == |next| && |upsert| == |Marked(marks, |next|)|
    requires forall m :: 0 <= m < |upsert| ==> upsert[m] == Placings(next)[Marked(marks, |next|)[m]]
    ensures ListsWhole(next, Marked(marks, |next|), upsert)
  {
  }

  lemma {:induction false} AppendsAre(prev: seq<Entry>, next: seq<Entry>)
    ensures ListsTails(prev, next, Marked(Growths(prev, next), |next|), Appends(prev, next, |next|))
  {
    var n, marks := |next|, Growths(prev, next);
    var lists := seq(n + 1, k requires 0 <= k <= n => Appends(prev, next, k));
    var items := seq(n, k requires 0 <= k < n =>
      if GrewHere(prev, next, k) then TailHere(prev, next, k) else TextAppend("", "", "", 0));
    forall j: nat | j < n ensures Adds(lists, marks, items, j) {
      AppendsPush(prev, next, j);
    }
    Built(lists, marks, items, n);
  }

  lemma {:induction false} RemovesAre(prev: seq<Entry>, next: seq<Entry>)
    ensures ListsGone(prev, Marked(Losses(prev, next), |prev|), MissingFrom(prev, Ids(next), |prev|))
  {
    var n, marks := |prev|, Losses(prev, next);
    var lists := seq(n + 1, k requires 0 <= k <= n => MissingFrom(prev, Ids(next), k));
    forall j: nat | j < n ensures Adds(lists, marks, Ids(prev), j) {
      PresentIds(next, prev[j].id);
    }
    Built(lists, marks, Ids(prev), n);
  }

  lemma PresentIds(es: seq<Entry>, id: string)
    ensures id in Ids(es) <==> Present(es, id)
  {
    if id in Ids(es) {
      var j :| 0 <= j < |es| && Ids(es)[j] == id;
      assert es[j].id == id;
    }
  }

  /** What a frame carries. It is the whole transcript exactly when that has more than four entries
      of which at least half must travel whole; otherwise it lists, each in order, those entries
      behind their new neighbour, the tails of the grown ones, and the ids that are gone. */
  lemma {:induction false} FrameExactly(prev: seq<Entry>, next: seq<Entry>)
    ensures var whole := Marked(Wholes(prev, next), |next|);
      var grown := Marked(Growths(prev, next), |next|);
      var gone := Marked(Losses(prev, next), |prev|);
      if |next| > 4 && 2 * |whole| >= |next| then Diff(prev, next) == Reset(next)
      else
        var f := Diff(prev, next);
        && f.Delta? && f.count == |next|
        && ListsWhole(next, whole, f.upsert) && ListsTails(prev, next, grown, f.append) && ListsGone(prev, gone, f.remove)
  {
    UpsertsAre(prev, next);
    AppendsAre(prev, next);
    RemovesAre(prev, next);
  }

  // ── same ids ─────────────────────────────────────────────────────────────

  ghost predicate SameIds(prev: seq<Entry>, next: seq<Entry>) {
    UniqueIds(prev) && Ids(prev) == Ids(next)
  }

  lemma SamePlace(prev: seq<Entry>, next: seq<Entry>, i: nat)
    requires SameIds(prev, next) && i < |next|
    ensures OldPlace(prev, next[i].id, i) && SameNeighbour(prev, i, next, i)
  {
    assert |Ids(prev)| == |Ids(next)| && Ids(prev)[i] == Ids(next)[i];
    assert i > 0 ==> Ids(prev)[i - 1] == Ids(next)[i - 1];
    LastPosUnique(prev, i);
    LastPosIs(prev, next[i].id);
  }

  lemma SameEntryStays(prev: seq<Entry>, next: seq<Entry>, i: nat)
    requires SameIds(prev, next) && i < |prev| == |next| && next[i] == prev[i]
    ensures !Whole(prev, next, i) && !GrewHere(prev, next, i)
  {
    SamePlace(prev, next, i);
    Unchanged(prev[i], next[i]);
    forall at: nat ensures !GrewFrom(prev, next, i, at) {
      if OldPlace(prev, next[i].id, at) {
        OnePlace(prev, next[i].id, i, at);
      }
    }
  }

  lemma GrownEntry(prev: seq<Entry>, next: seq<Entry>, i: nat, k: nat)
    requires SameIds(prev, next) && i < |prev| == |next| && GrewAt(prev[i], next[i], k)
    ensures !Whole(prev, next, i) && GrewHere(prev, next, i) && TailHere(prev, next, i) == Tail(prev[i], next[i], k)
  {
    SamePlace(prev, next, i);
    assert GrewFrom(prev, next, i, i);
    forall at: nat | GrewFrom(prev, next, i, at) ensures at == i {
      OnePlace(prev, next[i].id, i, at);
    }
    TailExactly(prev[i], next[i]);
  }

  lemma {:induction false} NoneGone(prev: seq<Entry>, next: seq<Entry>)
    requires Ids(prev) == Ids(next)
    ensures Marked(Losses(prev, next), |prev|) == []
  {
    forall i: nat | i < |prev| ensures Present(next, prev[i].id) {
      assert |Ids(prev)| == |Ids(next)| && Ids(prev)[i] == Ids(next)[i];
      assert next[i].id == prev[i].id;
    }
    MarkedNone(Losses(prev, next), |prev|);
  }

  /** The streaming case: when one text part of one entry grew, its tail is all that is sent. */
  lemma OneTextGrows(prev: seq<Entry>, next: seq<Entry>, i: nat, k: nat)
    requires SameIds(prev, next) && i < |prev| == |next| && next == prev[i := next[i]] && GrewAt(prev[i], next[i], k)
    ensures Diff(prev, next) == Delta([], [Tail(prev[i], next[i], k)], [], |next|)
  {
    OneMark(prev, next, i, k);
    GrownEntry(prev, next, i, k);
    NoneGone(prev, next);
    FrameExactly(prev, next);
  }

  lemma {:induction false} OneMark(prev: seq<Entry>, next: seq<Entry>, i: nat, k: nat)
    requires SameIds(prev, next) && i < |prev| == |next| && next == prev[i := next[i]] && GrewAt(prev[i], next[i], k)
    ensures Marked(Wholes(prev, next), |next|) == [] && Marked(Growths(prev, next), |next|) == [i]
  {
    forall j: nat | j < |next| ensures !Whole(prev, next, j) && (GrewHere(prev, next, j) <==> j == i) {
      if j == i {
        GrownEntry(prev, next, i, k);
      } else {
        SameEntryStays(prev, next, j);
      }
    }
    MarkedNone(Wholes(prev, next), |next|);
    MarkedOne(Growths(prev, next), |next|, i);
  }

  /** Nothing is sent when nothing changed, exactly as long as no id repeats. */
  lemma NothingChanged(es: seq<Entry>)
    ensures Diff(es, es) == Delta([], [], [], |es|) <==> UniqueIds(es)
  {
    if UniqueIds(es) {
      AllStay(es);
    } else {
      var i, j :| 0 <= i < j < |es| && Ids(es)[i] == Ids(es)[j];
      var w := RepeatMoves(es, i, j);
      MarkedAll(Wholes(es, es), |es|, w);
      FrameExactly(es, es);
    }
  }

  lemma AllStay(es: seq<Entry>)
    requires UniqueIds(es)
    ensures Diff(es, es) == Delta([], [], [], |es|)
  {
    forall j: nat | j < |es| ensures !Whole(es, es, j) && !GrewHere(es, es, j) {
      SameEntryStays(es, es, j);
    }
    MarkedNone(Wholes(es, es), |es|);
    MarkedNone(Growths(es, es), |es|);
    NoneGone(es, es);
    FrameExactly(es, es);
  }

  /** Of entries that share an id, one is taken to have moved. */
  lemma {:induction false} RepeatMoves(es: seq<Entry>, i: nat, j: nat) returns (w: nat)
    requires i < j < |es| && es[i].id == es[j].id
    ensures w < |es| && Whole(es, es, w)
    decreases i
  {
    LastPosIs(es, es[i].id);
    assert Ids(es)[i] in Ids(es);
    var at := LastPos(es, es[i].id).value;
    assert OldPlace(es, es[i].id, at) && at >= j;
    if SameNeighbour(es, at, es, i) {
      w := RepeatMoves(es, i - 1, at - 1);
    } else {
      w := i;
      forall b: nat | OldPlace(es, es[i].id, b) ensures b == at {
        OnePlace(es, es[i].id, at, b);
      }
    }
  }
}
