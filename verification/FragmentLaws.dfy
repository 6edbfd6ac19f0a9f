/**
 What a socket is answered and what a batch of updates comes to (edge/src/session-room.ts), with the
 limits in numbers.
 */
module FragmentLaws {
  import opened Common
  import opened Picking
  import opened Fragments
  import opened SendUpdates

  /** A header is refused for a stranger, then for its size, then for a penalized sender with more than a
      probe; a refusal changes nothing. Otherwise its batch starts over with as many empty parts. */
  lemma HeaderExactly(batches: Batches, m: Message)
    requires m.frame.Header?
    ensures Step(batches, m) ==
      if !m.gate.joined then (batches, PermissionDenied)
      else if m.frame.total > 33_554_432 || m.frame.count > 4_096 then (batches, PayloadTooLarge)
      else if m.gate.penalized && m.frame.total > 4_096 then (batches, InvalidUpdate)
      else (batches[m.frame.id := Batch(seq(m.frame.count, _ => Some([])), 0, m.frame.total)], Waiting)
  {
    StoreSame(batches, m.frame.id);
  }

  /** A plain update is refused for its size before anything else, then for a stranger. */
  lemma UpdateExactly(batches: Batches, m: Message)
    requires m.frame.DocUpdate?
    ensures Step(batches, m) ==
      if exists u :: u in m.frame.updates && |u| > 262_144 then (batches, PayloadTooLarge)
      else if !m.gate.joined then (batches, PermissionDenied)
      else (batches, Deliver(m.frame.updates))
  {
    StoreSame(batches, m.frame.id);
    var updates := m.frame.updates;
    if i :| 0 <= i < |updates| && |updates[i]| > MAX_MESSAGE_SIZE {
      assert updates[i] in updates;
    }
  }

  /** A fragment nobody announced asks for the batch again, except from a penalized sender. */
  lemma StrayFragment(batches: Batches, m: Message)
    requires m.frame.Fragment? && m.frame.id !in batches
    ensures Step(batches, m) == (batches, if m.gate.penalized then Ignored else FragmentTimeout)
  {
    StoreSame(batches, m.frame.id);
  }

  /** A large update goes in as few fragments as possible: all but the last are full, and the last is not
      empty. */
  lemma FragmentsFull(update: Bytes, i: nat)
    requires i < Count(update)
    ensures Count(update) == (|update| + 199_999) / 200_000
    ensures |Slice(update, i)| == if i + 1 < Count(update) then 200_000 else |update| - 200_000 * i
    ensures forall j :: 0 <= j < |Slice(update, i)| ==> Slice(update, i)[j] == update[200_000 * i + j]
  {
  }

  ghost function SizedWithin(updates: seq<Bytes>, low: int, high: nat): (marks: seq<bool>)
    ensures |marks| == |updates| && forall i :: 0 <= i < |updates| ==> marks[i] == (low < |updates[i]| <= high)
  {
    seq(|updates|, i requires 0 <= i < |updates| => low < |updates[i]| <= high)
  }

  lemma {:induction false} SmallExactly(updates: seq<Bytes>)
    ensures Picks(Small(updates), updates, SizedWithin(updates, -1, 200_000))
  {
    if updates != [] {
      var init := updates[..|updates| - 1];
      SmallExactly(init);
      assert SizedWithin(updates, -1, 200_000)[..|init|] == SizedWithin(init, -1, 200_000);
      PicksSnoc(Small(init), Small(updates), updates, SizedWithin(updates, -1, 200_000));
    }
  }

  lemma {:induction false} LargeExactly(updates: seq<Bytes>)
    ensures Picks(Admitted(Large(updates)), updates, SizedWithin(updates, 200_000, 33_554_432))
  {
    if updates != [] {
      var init, u := updates[..|updates| - 1], updates[|updates| - 1];
      LargeExactly(init);
      assert SizedWithin(updates, 200_000, 33_554_432)[..|init|] == SizedWithin(init, 200_000, 33_554_432);
      if |u| > FRAGMENT_BYTES {
        AdmittedPush(Large(init), u);
      } else {
        assert Large(updates) == Large(init);
      }
      PicksSnoc(Admitted(Large(init)), Admitted(Large(updates)), updates, SizedWithin(updates, 200_000, 33_554_432));
    }
  }

  lemma {:induction false} AdmittedPush(updates: seq<Bytes>, u: Bytes)
    ensures Admitted(updates + [u]) == Admitted(updates) + if |u| <= MAX_REASSEMBLED_BYTES then [u] else []
  {
    assert (updates + [u])[..|updates|] == updates;
  }

  /** What the other end gets of any list of updates: those of at most 200 000 bytes in order, then the
      larger ones up to 32 megabytes in order, and nothing else. */
  lemma ReceivedExactly(updates: seq<Bytes>, ids: nat -> BatchId, frames: seq<Frame>, small: nat)
      returns (first: seq<Bytes>, last: seq<Bytes>)
    requires small <= |frames| && SmallFrames(frames[..small]) && Carried(frames[..small]) == Small(updates)
    requires frames[small..] == AllLargeFrames(Large(updates), ids, small)
    ensures Received(map[], Arriving(frames)) == first + last
    ensures Picks(first, updates, SizedWithin(updates, -1, 200_000))
    ensures Picks(last, updates, SizedWithin(updates, 200_000, 33_554_432))
  {
    SentIsReceived(updates, ids, frames, small);
    SmallExactly(updates);
    LargeExactly(updates);
    first, last := Small(updates), Admitted(Large(updates));
  }
}
