/**
 The streaming pipeline end to end: events fold into parts, the writer stores them tick by tick, each
 tick is read back and sent to viewers as a diff, and what a viewer shows at the end is what was said.
 */
module Pipeline {
  import opened Common
  import opened Digits
  import opened MessageParts
  import opened EventFold
  import opened FoldLaw
  import opened SegmentWriter
  import opened ListEdits
  import opened TranscriptDelta
  import opened TranscriptRoundTrip

  // ── what was said ────────────────────────────────────────────────────────

  /** The text a part shows, as the answer itself or as commentary beside it. */
  function Voice(p: MessagePart, aside: bool): string {
    if p.Text? && !aside then p.text else if p.Commentary? && aside then p.text else ""
  }

  function Heard(parts: seq<MessagePart>, aside: bool): string {
    if parts == [] then "" else Heard(parts[..|parts| - 1], aside) + Voice(parts[|parts| - 1], aside)
  }

  lemma {:induction false} HeardPush(parts: seq<MessagePart>, p: MessagePart, aside: bool)
    ensures Heard(parts + [p], aside) == Heard(parts, aside) + Voice(p, aside)
  {
    assert (parts + [p])[..|parts|] == parts;
  }

  lemma {:induction false} SameVoices(a: seq<MessagePart>, b: seq<MessagePart>, aside: bool)
    requires |a| == |b| && forall k :: 0 <= k < |a| ==> Voice(a[k], aside) == Voice(b[k], aside)
    ensures Heard(a, aside) == Heard(b, aside)
  {
    if a != [] {
      SameVoices(a[..|a| - 1], b[..|b| - 1], aside);
    }
  }

  /** A delta that extends the trailing part. */
  lemma GrownTail(parts: seq<MessagePart>, p: MessagePart, text: string, aside: bool)
    requires parts != [] && Voice(p, aside) == Voice(parts[|parts| - 1], aside) + text
    ensures Heard(parts[|parts| - 1 := p], aside) == Heard(parts, aside) + text
  {
    var init := parts[..|parts| - 1];
    assert parts[|parts| - 1 := p] == init + [p];
    HeardPush(init, p, aside);
  }

  lemma {:induction false} FoldHears(parts: seq<MessagePart>, e: AgentEvent, aside: bool)
    requires !Boundary(e)
    ensures Heard(FoldEvent(parts, e), aside) == Heard(parts, aside) + Uttered(e, aside)
  {
    var n, next := |parts|, FoldEvent(parts, e);
    if |next| == n + 1 {
      assert next == parts + [next[n]];
      HeardPush(parts, next[n], aside);
    } else if e.TextDelta? || e.CommentaryDelta? {
      GrownTail(parts, next[n - 1], Uttered(e, aside), aside);
    } else {
      SameVoices(parts, next, aside);
    }
  }

  /** The fold loses, repeats and reorders no text. */
  lemma {:induction false} FoldSays(events: seq<AgentEvent>, aside: bool)
    ensures Heard(FoldAll(events), aside) == Said(events, aside)
  {
    if events != [] {
      var init, e := events[..|events| - 1], events[|events| - 1];
      if !Boundary(e) {
        FoldSays(init, aside);
        FoldHears(FoldAll(init), e, aside);
      }
    }
  }

  // ── text parts are named by their place ──────────────────────────────────

  lemma {:induction false} DecimalWide(n: nat)
    ensures |Decimal(n)| > 0 && (n >= 10 <==> |Decimal(n)| > 1)
  {
  }

  lemma {:induction false} DecimalDiffers(a: nat, b: nat)
    requires Decimal(a) == Decimal(b)
    ensures a == b
  {
    var s, t := Decimal(a), Decimal(b);
    DecimalWide(a);
    DecimalWide(b);
    assert s[|s| - 1] == Digit(a % 10) && t[|t| - 1] == Digit(b % 10);
    if a >= 10 {
      assert s[..|s| - 1] == Decimal(a / 10) && t[..|t| - 1] == Decimal(b / 10);
      DecimalDiffers(a / 10, b / 10);
    }
  }

  ghost predicate NamedAt(p: MessagePart, k: nat) {
    p.Textual() ==> p.id == (if p.Text? then "t" else "c") + Decimal(k)
  }

  ghost predicate NamedByPlace(parts: seq<MessagePart>) {
    forall k :: 0 <= k < |parts| ==> NamedAt(parts[k], k)
  }

  lemma FoldNames(parts: seq<MessagePart>, e: AgentEvent)
    requires NamedByPlace(parts)
    ensures NamedByPlace(FoldEvent(parts, e))
  {
    var next := FoldEvent(parts, e);
    forall k | 0 <= k < |next| ensures NamedAt(next[k], k) {
      assert k < |parts| ==> NamedAt(parts[k], k);
    }
  }

  lemma {:induction false} FoldAllNames(events: seq<AgentEvent>)
    ensures NamedByPlace(FoldAll(events))
  {
    if events != [] {
      FoldAllNames(events[..|events| - 1]);
      FoldNames(FoldAll(events[..|events| - 1]), events[|events| - 1]);
    }
  }

  /** So the delta codec's condition on part ids holds of every entry the fold makes. */
  lemma NamedIsUnique(e: Entry)
    requires NamedByPlace(e.parts)
    ensures UniqueTexts(e)
  {
    forall i, j | 0 <= i < j < |e.parts| && e.parts[i].Textual() && e.parts[j].Textual()
      ensures e.parts[i].id != e.parts[j].id
    {
      assert NamedAt(e.parts[i], i) && NamedAt(e.parts[j], j);
      if e.parts[i].id == e.parts[j].id {
        assert Decimal(i) == e.parts[i].id[1..] && Decimal(j) == e.parts[j].id[1..];
        DecimalDiffers(i, j);
      }
    }
  }

  // ── reading the document back ────────────────────────────────────────────

  function ReadBack(docs: seq<DocPart>): (parts: seq<MessagePart>)
    ensures |parts| == |docs|
    ensures forall k :: 0 <= k < |docs| ==> parts[k] == FromDocPart(docs[k])
  {
    seq(|docs|, k requires 0 <= k < |docs| => FromDocPart(docs[k]))
  }

  lemma ReadBackKeepsText(p: MessagePart, k: nat, aside: bool)
    ensures Voice(FromDocPart(ToDocPart(p)), aside) == Voice(p, aside)
    ensures NamedAt(p, k) ==> NamedAt(FromDocPart(ToDocPart(p)), k)
  {
    match p {
      case Text(_, _) =>
      case Commentary(_, _) =>
      case Notice(_, _, _) =>
      case Tool(_, _, _, _, _, _, _, _, _, _) =>
      case Input(_, _, _, _) =>
      case Error(_, _) =>
    }
  }

  lemma {:induction false} ReadBackFacts(parts: seq<MessagePart>, aside: bool)
    ensures Heard(ReadBack(ToDocParts(parts)), aside) == Heard(parts, aside)
    ensures NamedByPlace(parts) ==> NamedByPlace(ReadBack(ToDocParts(parts)))
  {
    var back := ReadBack(ToDocParts(parts));
    forall k | 0 <= k < |parts|
      ensures Voice(back[k], aside) == Voice(parts[k], aside)
      ensures NamedAt(parts[k], k) ==> NamedAt(back[k], k)
    {
      ReadBackKeepsText(parts[k], k, aside);
    }
    SameVoices(back, parts, aside);
  }

  /** What the writer last wrote is the fold of some prefix, so its text parts are named by place. */
  lemma {:induction false} RunNames(events: seq<AgentEvent>, ticks: seq<bool>)
    requires |ticks| == |events| && NoBoundary(events) && NoDowngrade(events)
    ensures NamedByPlace(Run(events, ticks).written)
  {
    if events != [] {
      var n := |events| - 1;
      PrefixQuiet(events);
      RunNames(events[..n], ticks[..n]);
      RunFaithful(events[..n], ticks[..n]);
      StepCovers(events);
      SyncExact(Run(events[..n], ticks[..n]), FoldAll(events));
      FoldAllNames(events);
    }
  }

  // ── the viewer ───────────────────────────────────────────────────────────

  /** The transcript after `k` events: earlier entries and the live one as the document holds it. */
  function Screen(before: seq<Entry>, live: Entry, events: seq<AgentEvent>, ticks: seq<bool>, k: nat): seq<Entry>
    requires k <= |events| == |ticks|
  {
    before + [live.(parts := ReadBack(Run(events[..k], ticks[..k]).stored))]
  }

  function LastScreen(before: seq<Entry>, live: Entry, events: seq<AgentEvent>, ticks: seq<bool>): seq<Entry>
    requires |events| == |ticks|
  {
    before + [live.(parts := ReadBack(FinishedDoc(events, ticks)), status := Some(Complete))]
  }

  /** Everything the watch sees: one state per event, then the finished entry. */
  function Screens(before: seq<Entry>, live: Entry, events: seq<AgentEvent>, ticks: seq<bool>): (s: seq<seq<Entry>>)
    requires |events| == |ticks|
    ensures |s| == |events| + 2
  {
    seq(|events| + 1, k requires 0 <= k < |events| + 1 => Screen(before, live, events, ticks, k))
    + [LastScreen(before, live, events, ticks)]
  }

  ghost predicate Proper(before: seq<Entry>, live: Entry, screen: seq<Entry>) {
    && Ids(screen) == Ids(before + [live])
    && (forall e :: e in screen ==> UniqueTexts(e))
  }

  lemma ScreenProper(before: seq<Entry>, live: Entry, entry: Entry)
    requires (forall e :: e in before ==> UniqueTexts(e)) && entry.id == live.id && NamedByPlace(entry.parts)
    ensures Proper(before, live, before + [entry])
  {
    NamedIsUnique(entry);
  }

  lemma EachProper(before: seq<Entry>, live: Entry, events: seq<AgentEvent>, ticks: seq<bool>, k: nat)
    requires |ticks| == |events| && NoBoundary(events) && NoDowngrade(events) && k < |events| + 2
    requires forall e :: e in before ==> UniqueTexts(e)
    ensures Proper(before, live, Screens(before, live, events, ticks)[k])
  {
    if k <= |events| {
      PrefixesQuiet(events, k);
      RunFaithful(events[..k], ticks[..k]);
      RunNames(events[..k], ticks[..k]);
      var written := Run(events[..k], ticks[..k]).written;
      ReadBackFacts(written, false);
      ScreenProper(before, live, live.(parts := ReadBack(ToDocParts(written))));
    } else {
      FinishedFaithful(events, ticks);
      FoldAllNames(events);
      ReadBackFacts(FoldAll(events), false);
      ScreenProper(before, live, live.(parts := ReadBack(ToDocParts(FoldAll(events))), status := Some(Complete)));
    }
  }

  lemma SameIdsInOrder(prev: seq<Entry>, next: seq<Entry>)
    requires Ids(prev) == Ids(next) && UniqueIds(prev)
    ensures SurvivorsInOrder(prev, next)
  {
    forall i, j | 0 <= i < j < |next| && next[i].id in Ids(prev) && next[j].id in Ids(prev)
      ensures Pos(Ids(prev), next[i].id) < Pos(Ids(prev), next[j].id)
    {
      assert next[i].id == Ids(next)[i] && next[j].id == Ids(next)[j];
      PosOfIndex(Ids(prev), i);
      PosOfIndex(Ids(prev), j);
    }
  }

  lemma {:induction false} WatchProper(before: seq<Entry>, live: Entry, sources: seq<seq<Entry>>)
    requires UniqueIds(before + [live]) && sources != []
    requires forall k :: 0 <= k < |sources| ==> Proper(before, live, sources[k])
    ensures Watch(sources) == Ok(sources[|sources| - 1])
  {
    forall k: nat | k + 1 < |sources| ensures NextInOrder(sources, k) {
      assert Proper(before, live, sources[k]) && Proper(before, live, sources[k + 1]);
      SameIdsInOrder(sources[k], sources[k + 1]);
    }
    WatchFollowsSource(sources);
  }

  /** A part as the document gives it back: an input goes by its request id. */
  function Shown(p: MessagePart): MessagePart {
    if p.Input? then Input(p.requestId, p.requestId, p.questions, p.resolved) else p
  }

  /** What the viewer sees of each part is what the events tell of it. */
  lemma {:induction false} ShownAt(events: seq<AgentEvent>, k: nat)
    requires k < |FoldAll(events)|
    ensures k < |Openers(events)|
    ensures ReadBack(ToDocParts(FoldAll(events)))[k] == Shown(Part(events, k))
  {
    FoldTells(events);
    ToldResolves(events, k);
    DocPartRoundTrip(Part(events, k));
    assert ToDocParts(FoldAll(events))[k] == ToDocPart(FoldAll(events)[k]);
  }

  lemma {:induction false} EveryPartShown(events: seq<AgentEvent>)
    ensures var parts := ReadBack(ToDocParts(FoldAll(events)));
      |parts| == |Openers(events)| && forall k :: 0 <= k < |parts| ==> parts[k] == Shown(Part(events, k))
  {
    FoldTells(events);
    var parts := ReadBack(ToDocParts(FoldAll(events)));
    forall k | 0 <= k < |parts| ensures parts[k] == Shown(Part(events, k)) {
      ShownAt(events, k);
    }
  }

  lemma {:induction false} ToldResolves(events: seq<AgentEvent>, k: nat)
    requires k < |Openers(events)|
    ensures var p := Part(events, k); p.Tool? && p.isError ==> p.resolved
  {
  }

  /** A viewer that watches a segment stream, whatever the commit ticks, ends with the earlier entries
      as they were and the live entry complete. Its parts are those the events opened, in order, each
      showing what the events tell of it; in all it says exactly what the deltas said. */
  lemma {:induction false} StreamReachesViewer(before: seq<Entry>, live: Entry, events: seq<AgentEvent>,
                                               ticks: seq<bool>, aside: bool)
    requires |ticks| == |events| && NoBoundary(events) && NoDowngrade(events)
    requires UniqueIds(before + [live]) && forall e :: e in before ==> UniqueTexts(e)
    ensures var parts := ReadBack(ToDocParts(FoldAll(events)));
      && Watch(Screens(before, live, events, ticks)) == Ok(before + [live.(parts := parts, status := Some(Complete))])
      && |parts| == |Openers(events)|
      && (forall k :: 0 <= k < |parts| ==> parts[k] == Shown(Part(events, k)))
      && Heard(parts, aside) == Said(events, aside)
  {
    EveryPartShown(events);
    var screens := Screens(before, live, events, ticks);
    forall k | 0 <= k < |screens| ensures Proper(before, live, screens[k]) {
      EachProper(before, live, events, ticks, k);
    }
    WatchProper(before, live, screens);
    FinishedFaithful(events, ticks);
    ReadBackFacts(FoldAll(events), aside);
    FoldSays(events, aside);
    assert screens[|screens| - 1] == LastScreen(before, live, events, ticks);
  }
}
