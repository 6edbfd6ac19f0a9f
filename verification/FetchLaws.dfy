/**
 When the checkpoint download succeeds (crates/engine/src/chat2_host.rs against edge/src/chat-room.ts):
 it resumes where it was cut, and exactly which patterns of cut and failed attempts it survives.
 */
module FetchLaws {
  import opened Common
  import opened CheckpointFetch

  /** A range starting here is served: the beginning always, another place only inside the blob. */
  predicate Room(have: nat, size: nat) {
    have == 0 || have < size
  }

  /** How much of the blob is there after an attempt that did not finish. */
  function Have(have: nat, size: nat, link: Link): nat {
    if link.Cut? then if have + link.bytes <= size then have + link.bytes else size else have
  }

  /** The attempt leaves the download going: nothing was sent, or a served body was cut. */
  predicate GoesOn(have: nat, size: nat, link: Link) {
    link.SendFails? || (link.Cut? && Room(have, size))
  }

  /** Attempt `j` is the first that does not just go on, and it completes a served body. */
  ghost predicate CompletesAt(have: nat, size: nat, links: seq<Link>, i: nat, j: nat)
    decreases |links| - i
  {
    && i <= j < |links|
    && if i == j then links[i].Complete? && Room(have, size)
       else GoesOn(have, size, links[i]) && CompletesAt(Have(have, size, links[i]), size, links, i + 1, j)
  }

  /** Attempt `j` is the first that does not just go on, and it has no token. */
  ghost predicate SignedOutAt(have: nat, size: nat, links: seq<Link>, i: nat, j: nat)
    decreases |links| - i
  {
    && i <= j < |links|
    && if i == j then links[i].SignedOut?
       else GoesOn(have, size, links[i]) && SignedOutAt(Have(have, size, links[i]), size, links, i + 1, j)
  }

  ghost predicate Completes(have: nat, size: nat, links: seq<Link>, i: nat) {
    exists j :: CompletesAt(have, size, links, i, j)
  }

  ghost predicate SignsOut(have: nat, size: nat, links: seq<Link>, i: nat) {
    exists j :: SignedOutAt(have, size, links, i, j)
  }

  lemma CompletesStep(have: nat, size: nat, links: seq<Link>, i: nat)
    requires i < |links|
    ensures Completes(have, size, links, i) <==>
      || (links[i].Complete? && Room(have, size))
      || (GoesOn(have, size, links[i]) && Completes(Have(have, size, links[i]), size, links, i + 1))
    ensures SignsOut(have, size, links, i) <==>
      || links[i].SignedOut?
      || (GoesOn(have, size, links[i]) && SignsOut(Have(have, size, links[i]), size, links, i + 1))
  {
    var next := Have(have, size, links[i]);
    if j :| CompletesAt(have, size, links, i, j) {
      assert i < j ==> CompletesAt(next, size, links, i + 1, j);
    }
    if links[i].Complete? && Room(have, size) {
      assert CompletesAt(have, size, links, i, i);
    }
    if GoesOn(have, size, links[i]) && Completes(next, size, links, i + 1) {
      var j :| CompletesAt(next, size, links, i + 1, j);
      assert CompletesAt(have, size, links, i, j);
    }
    if j :| SignedOutAt(have, size, links, i, j) {
      assert i < j ==> SignedOutAt(next, size, links, i + 1, j);
    }
    if links[i].SignedOut? {
      assert SignedOutAt(have, size, links, i, i);
    }
    if GoesOn(have, size, links[i]) && SignsOut(next, size, links, i + 1) {
      var j :| SignedOutAt(next, size, links, i + 1, j);
      assert SignedOutAt(have, size, links, i, j);
    }
  }

  /** What was gathered is the beginning of this blob. */
  ghost predicate On(p: Progress, cp: Checkpoint) {
    p.got <= cp.bytes && (p.seen == Some(cp.seqNo) || (p.seen.None? && p.got == []))
  }

  /** One attempt at a blob whose beginning is there. */
  lemma AttemptOn(p: Progress, cp: Checkpoint, link: Link)
    requires On(p, cp)
    ensures match Attempt(p, Some(cp), link)
      case Finished(result) =>
        && !GoesOn(|p.got|, |cp.bytes|, link)
        && result == (if link.SignedOut? then Err(AuthError)
                      else if link.Complete? && Room(|p.got|, |cp.bytes|) then Ok(cp.bytes)
                      else Err(ProtocolError))
      case Retry(next) =>
        GoesOn(|p.got|, |cp.bytes|, link) && On(next, cp) && |next.got| == Have(|p.got|, |cp.bytes|, link)
  {
    if !link.SignedOut? && !link.SendFails? && Room(|p.got|, |cp.bytes|) {
      assert p.got + cp.bytes[|p.got|..] == cp.bytes;
      if link.Cut? && p.got != [] {
        PrefixResumes(p.got, cp.bytes, link.bytes);
      }
    }
  }

  lemma PrefixResumes(got: Bytes, bytes: Bytes, n: nat)
    requires got <= bytes
    ensures got + Prefix(bytes[|got|..], n) <= bytes
  {
  }

  /** While one blob is held, the download gives that blob if and only if some attempt completes before
      any is refused, and reports a missing token exactly when that comes first. */
  lemma {:induction false} SteadyExactly(p: Progress, cp: Checkpoint, held: seq<Option<Checkpoint>>,
                                         links: seq<Link>, i: nat)
    requires |held| == |links| && i <= |held| && On(p, cp)
    requires forall j :: i <= j < |held| ==> held[j] == Some(cp)
    ensures var r := FetchFrom(p, held, links, i);
      && (r.Ok? <==> Completes(|p.got|, |cp.bytes|, links, i))
      && (r.Ok? ==> r.value == cp.bytes)
      && (r == Err(AuthError) <==> SignsOut(|p.got|, |cp.bytes|, links, i))
    decreases |held| - i
  {
    if i < |held| {
      AttemptOn(p, cp, links[i]);
      CompletesStep(|p.got|, |cp.bytes|, links, i);
      match Attempt(p, held[i], links[i]) {
        case Retry(next) => SteadyExactly(next, cp, held, links, i + 1);
        case Finished(_) =>
      }
    }
  }

  /** When another blob has taken its place, an attempt that reaches the server only finds that out and
      starts over, at the new blob's beginning; if the new blob is no longer than what was gathered, the
      download fails. */
  lemma {:induction false} ReplacedRestarts(p: Progress, cp: Checkpoint, held: seq<Option<Checkpoint>>,
                                            links: seq<Link>, i: nat)
    requires |held| == |links| && i < |held| && p.seen.Some? && p.seen != Some(cp.seqNo)
    requires forall j :: i <= j < |held| ==> held[j] == Some(cp)
    requires links[i].Cut? || links[i].Complete?
    ensures var r := FetchFrom(p, held, links, i);
      if Room(|p.got|, |cp.bytes|) then
        && (r.Ok? <==> Completes(0, |cp.bytes|, links, i + 1))
        && (r.Ok? ==> r.value == cp.bytes)
      else r == Err(ProtocolError)
  {
    if Room(|p.got|, |cp.bytes|) {
      assert Attempt(p, held[i], links[i]) == Retry(Progress([], Some(cp.seqNo)));
      SteadyExactly(Progress([], Some(cp.seqNo)), cp, held, links, i + 1);
    }
  }

  /** Nothing committed, nothing to download. */
  lemma {:induction false} NothingHeld(p: Progress, held: seq<Option<Checkpoint>>, links: seq<Link>, i: nat)
    requires |held| == |links| && i < |held| && held[i].None? && (links[i].Cut? || links[i].Complete?)
    ensures FetchFrom(p, held, links, i) == Err(ProtocolError)
  {
  }

  /** Four attempts in all: three can fail or be cut, and a fourth still completes. */
  lemma {:induction false} ThreeMayFail(cp: Checkpoint, links: seq<Link>)
    requires |links| == 4 && links[3].Complete? && forall j :: 0 <= j < 3 ==> links[j].SendFails?
    ensures ATTEMPTS == 4
    ensures FetchFrom(Progress([], None), [Some(cp), Some(cp), Some(cp), Some(cp)], links, 0) == Ok(cp.bytes)
  {
    var held := [Some(cp), Some(cp), Some(cp), Some(cp)];
    SteadyExactly(Progress([], None), cp, held, links, 0);
    assert CompletesAt(0, |cp.bytes|, links, 3, 3);
    assert CompletesAt(0, |cp.bytes|, links, 2, 3);
    assert CompletesAt(0, |cp.bytes|, links, 1, 3);
    assert CompletesAt(0, |cp.bytes|, links, 0, 3);
  }
}
