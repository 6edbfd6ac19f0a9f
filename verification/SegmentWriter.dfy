/**
 The incremental writer of a streaming assistant entry (crates/doc/src/schema.rs).

 The document holds one record of optional fields per part. A record update writes the fields the
 new part has and never clears one. At every commit tick the writer compares the folded parts with
 what it wrote last and stores only the difference.
 */
module SegmentWriter {
  import opened Common
  import opened MessageParts
  import opened EventFold

  datatype DocPart = DocPart(
    id: string, kind: string, text: Option<string>, call: Option<Json>, isError: Option<bool>,
    questions: Option<Json>, resolved: Option<bool>, message: Option<string>, level: Option<NoticeLevel>,
    output: Option<string>, diff: Option<Json>, outputRef: Option<string>, outputBytes: Option<nat>,
    diffRef: Option<string>, diffStats: Option<seq<DiffStat>>)

  function Blank(id: string, kind: string): DocPart {
    DocPart(id, kind, None, None, None, None, None, None, None, None, None, None, None, None, None)
  }

  function ToDocPart(p: MessagePart): DocPart {
    match p
    case Text(id, text) => Blank(id, "text").(text := Some(text))
    case Commentary(id, text) => Blank(id, "commentary").(text := Some(text))
    case Notice(id, level, message) => Blank(id, "notice").(level := Some(level), message := Some(message))
    case Tool(id, call, isError, resolved, output, diff, outputRef, outputBytes, diffRef, diffStats) =>
      Blank(id, "tool").(call := Some(call), isError := if resolved then Some(isError) else None,
                         output := output, diff := diff, outputRef := outputRef, outputBytes := outputBytes,
                         diffRef := diffRef, diffStats := diffStats)
    case Input(_, requestId, questions, resolved) =>
      Blank(requestId, "input").(questions := Some(questions), resolved := Some(resolved))
    case Error(id, message) => Blank(id, "error").(message := Some(message))
  }

  function Or<T>(o: Option<T>, default: T): T {
    if o.Some? then o.value else default
  }

  /** Reading a record back. Unknown kinds and tools without a call degrade to text. */
  function FromDocPart(d: DocPart): MessagePart {
    if d.kind == "tool" then
      if d.call.None? then Text(d.id, "")
      else Tool(d.id, d.call.value, Or(d.isError, false), d.isError.Some?, d.output, d.diff, d.outputRef,
                d.outputBytes, d.diffRef, d.diffStats)
    else if d.kind == "input" then Input(d.id, d.id, Or(d.questions, "[]"), Or(d.resolved, false))
    else if d.kind == "commentary" then Commentary(d.id, Or(d.text, ""))
    else if d.kind == "notice" then Notice(d.id, Or(d.level, Warning), Or(d.message, ""))
    else if d.kind == "error" then Error(d.id, Or(d.message, ""))
    else Text(d.id, Or(d.text, ""))
  }

  /** Reading back what was written gives the part itself, except that an input part comes back
      keyed by its request id and an unresolved tool cannot carry an error flag. */
  lemma DocPartRoundTrip(p: MessagePart)
    ensures FromDocPart(ToDocPart(p)) == p <==>
      (p.Input? ==> p.id == p.requestId) && (p.Tool? && p.isError ==> p.resolved)
    ensures p.Input? ==> FromDocPart(ToDocPart(p)) == Input(p.requestId, p.requestId, p.questions, p.resolved)
  {
    match p {
      case Text(_, _) =>
      case Commentary(_, _) =>
      case Notice(_, _, _) =>
      case Tool(_, _, _, _, _, _, _, _, _, _) =>
      case Input(_, _, _, _) =>
      case Error(_, _) =>
    }
  }

  /** Whatever a record holds it reads back as some part of its id: an unknown kind, or a tool without a
      call, as text, and a field that is missing as its default. */
  lemma ReadsBackAnything(d: DocPart)
    ensures FromDocPart(d).id == d.id
    ensures FromDocPart(d).Tool? <==> d.kind == "tool" && d.call.Some?
    ensures d.kind == "tool" && d.call.None? ==> FromDocPart(d) == MessagePart.Text(d.id, "")
    ensures FromDocPart(d).Tool? ==> (FromDocPart(d).resolved <==> d.isError.Some?)
    ensures FromDocPart(d).Input? <==> d.kind == "input"
    ensures d.kind == "input" && d.questions.None? && d.resolved.None? ==> FromDocPart(d) == Input(d.id, d.id, "[]", false)
    ensures d.kind == "notice" && d.level.None? && d.message.None? ==> FromDocPart(d) == Notice(d.id, Warning, "")
    ensures d.kind !in {"text", "commentary", "notice", "tool", "input", "error"} ==>
      FromDocPart(d) == MessagePart.Text(d.id, if d.text.Some? then d.text.value else "")
  {
  }

  function ToDocParts(parts: seq<MessagePart>): (docs: seq<DocPart>)
    ensures |docs| == |parts|
    ensures forall k :: 0 <= k < |parts| ==> docs[k] == ToDocPart(parts[k])
  {
    seq(|parts|, k requires 0 <= k < |parts| => ToDocPart(parts[k]))
  }

  function Over<T>(fresh0: Option<T>, stored: Option<T>): Option<T> {
    if fresh0.Some? then fresh0 else stored
  }

  /** Field-level update: `id`, `kind` and `level` are never rewritten, and a text body only where
      the record already has one. */
  function UpdateFields(rec: DocPart, p: MessagePart): DocPart {
    var d := ToDocPart(p);
    rec.(call := Over(d.call, rec.call), isError := Over(d.isError, rec.isError),
         questions := Over(d.questions, rec.questions), resolved := Over(d.resolved, rec.resolved),
         message := Over(d.message, rec.message), output := Over(d.output, rec.output),
         diff := Over(d.diff, rec.diff), outputRef := Over(d.outputRef, rec.outputRef),
         outputBytes := Over(d.outputBytes, rec.outputBytes), diffRef := Over(d.diffRef, rec.diffRef),
         diffStats := Over(d.diffStats, rec.diffStats),
         text := if rec.text.Some? then Over(d.text, rec.text) else rec.text)
  }

  /** What one sync does to the record of a part it had written as `was`. */
  function SyncRecord(rec: DocPart, was: MessagePart, now: MessagePart): DocPart {
    if was == now then rec
    else if SameTextKind(was, now) && was.text <= now.text then
      if rec.text.Some? then rec.(text := Some(rec.text.value + now.text[|was.text|..])) else rec
    else UpdateFields(rec, now)
  }

  datatype Writer = Writer(stored: seq<DocPart>, written: seq<MessagePart>)

  const FRESH := Writer([], [])

  function Sync(w: Writer, folded: seq<MessagePart>): Writer
    requires |w.stored| == |w.written|
  {
    var n, m := |w.written|, |folded|;
    Writer(
      seq(if n < m then m else n, k requires 0 <= k < (if n < m then m else n) =>
        if k >= n then ToDocPart(folded[k])
        else if k >= m then w.stored[k]
        else SyncRecord(w.stored[k], w.written[k], folded[k])),
      seq(if n < m then m else n, k requires 0 <= k < (if n < m then m else n) =>
        if k < m then folded[k] else w.written[k]))
  }

  /** A sync writes a record per folded part and never takes one away. */
  lemma SyncKeepsRest(w: Writer, folded: seq<MessagePart>, k: nat)
    requires |w.stored| == |w.written| && |folded| <= k < |w.stored|
    ensures |Sync(w, folded).stored| == |w.stored| && |Sync(w, folded).written| == |w.written|
    ensures Sync(w, folded).stored[k] == w.stored[k] && Sync(w, folded).written[k] == w.written[k]
  {
  }

  /** The stored record of a growing text part lost its text body, which the writer reports as an error. */
  predicate TextMissing(rec: DocPart, was: MessagePart, now: MessagePart) {
    SameTextKind(was, now) && was.text < now.text && rec.text.None?
  }

  predicate Writable(w: Writer, folded: seq<MessagePart>)
    requires |w.stored| == |w.written|
  {
    forall k :: 0 <= k < |w.written| && k < |folded| ==> !TextMissing(w.stored[k], w.written[k], folded[k])
  }

  /** The writer object: the parts list of its document entry and the mirror of what it wrote. */
  class DocSegmentWriter {
    var stored: seq<DocPart>
    var written: seq<MessagePart>

    ghost predicate Valid()
      reads this
    {
      |stored| == |written|
    }

    ghost function State(): Writer
      reads this
    {
      Writer(stored, written)
    }

    constructor ()
      ensures Valid() && State() == FRESH
    {
      stored, written := [], [];
    }

    method Commit(folded: seq<MessagePart>) returns (ok: bool)
      requires Valid()
      modifies this
      ensures Valid()
      ensures ok <==> Writable(old(State()), folded)
      ensures ok ==> State() == Sync(old(State()), folded)
    {
      var i := 0;
      ghost var target := Sync(State(), folded);
      ghost var n := |written|;
      while i < |folded|
        invariant 0 <= i <= |folded|
        invariant |stored| == |written| == if i < n then n else i
        invariant forall k :: 0 <= k < i ==> stored[k] == target.stored[k] && written[k] == target.written[k]
        invariant forall k :: i <= k < |written| ==> stored[k] == old(stored)[k] && written[k] == old(written)[k]
        invariant forall k :: 0 <= k < i && k < n ==> !TextMissing(old(stored)[k], old(written)[k], folded[k])
      {
        var part := folded[i];
        if i == |written| {
          stored := stored + [ToDocPart(part)];
          written := written + [part];
        } else if written[i] != part {
          if SameTextKind(written[i], part) && written[i].text <= part.text {
            var tail := part.text[|written[i].text|..];
            if tail != "" {
              if stored[i].text.None? {
                assert TextMissing(old(stored)[i], old(written)[i], folded[i]);
                return false;
              }
              stored := stored[i := stored[i].(text := Some(stored[i].text.value + tail))];
            } else {
              assert stored[i].text.Some? ==> stored[i].text.value + tail == stored[i].text.value;
            }
          } else {
            stored := stored[i := UpdateFields(stored[i], part)];
          }
          written := written[i := part];
        }
        i := i + 1;
      }
      ok := true;
    }
  }

  // ── when one sync is faithful ────────────────────────────────────────────

  ghost predicate Lost<T>(was: Option<T>, now: Option<T>) {
    was.Some? && now.None?
  }

  /** Updating the record of `was` with `now` leaves no stale field behind. */
  ghost predicate Covers(was: MessagePart, now: MessagePart) {
    var d, e := ToDocPart(was), ToDocPart(now);
    && d.id == e.id && d.kind == e.kind && d.level == e.level
    && !Lost(d.isError, e.isError) && !Lost(d.output, e.output) && !Lost(d.diff, e.diff)
    && !Lost(d.outputRef, e.outputRef) && !Lost(d.outputBytes, e.outputBytes)
    && !Lost(d.diffRef, e.diffRef) && !Lost(d.diffStats, e.diffStats)
  }

  lemma CoversTransitive(a: MessagePart, b: MessagePart, c: MessagePart)
    requires Covers(a, b) && Covers(b, c)
    ensures Covers(a, c)
  {
  }

  lemma SyncRecordExact(was: MessagePart, now: MessagePart)
    ensures SyncRecord(ToDocPart(was), was, now) == ToDocPart(now) <==> Covers(was, now)
  {
    if SameTextKind(was, now) && was.text <= now.text {
      assert was.text + now.text[|was.text|..] == now.text;
    } else {
      var d, e := ToDocPart(was), ToDocPart(now);
      if d.kind == e.kind && d.text.Some? {
        assert UpdateFields(d, now).text == e.text;
      }
    }
  }

  ghost predicate CoversAll(written: seq<MessagePart>, folded: seq<MessagePart>) {
    |written| <= |folded| && forall k :: 0 <= k < |written| ==> Covers(written[k], folded[k])
  }

  /** A faithful record list always has the text bodies the writer grows. */
  lemma FaithfulIsWritable(w: Writer, folded: seq<MessagePart>)
    requires w.stored == ToDocParts(w.written)
    ensures Writable(w, folded)
  {
    forall k | 0 <= k < |w.written| && k < |folded|
      ensures !TextMissing(w.stored[k], w.written[k], folded[k])
    {
      assert w.stored[k] == ToDocPart(w.written[k]);
    }
  }

  /** A sync turns a faithful record list into a faithful one exactly when no field was lost. */
  lemma SyncExact(w: Writer, folded: seq<MessagePart>)
    requires w.stored == ToDocParts(w.written) && |w.written| <= |folded|
    ensures Sync(w, folded).written == folded
    ensures Sync(w, folded).stored == ToDocParts(folded) <==> CoversAll(w.written, folded)
  {
    var next := Sync(w, folded);
    forall k | 0 <= k < |w.written|
      ensures next.stored[k] == ToDocPart(folded[k]) <==> Covers(w.written[k], folded[k])
    {
      SyncRecordExact(w.written[k], folded[k]);
    }
    if next.stored == ToDocParts(folded) {
      forall k | 0 <= k < |w.written|
        ensures Covers(w.written[k], folded[k])
      {
        assert next.stored[k] == ToDocParts(folded)[k];
      }
    }
  }

  // ── what the fold does to parts already there ────────────────────────────

  /** Tool parts as the fold builds them: it never stores outputs, inline diffs or sidecar keys. */
  ghost predicate Lean(parts: seq<MessagePart>) {
    forall k :: 0 <= k < |parts| && parts[k].Tool? ==>
      parts[k].output.None? && parts[k].diff.None? && parts[k].outputRef.None?
      && parts[k].outputBytes.None? && parts[k].diffRef.None?
  }

  /** A result without a diff reaches a tool part that shows diff statistics. */
  ghost predicate Downgrades(p: MessagePart, e: AgentEvent) {
    e.ToolResult? && e.diff.None? && IsTool(p, e.id) && p.diffStats.Some?
  }

  lemma FoldCovers(parts: seq<MessagePart>, e: AgentEvent, k: nat)
    requires !Boundary(e) && Lean(parts) && k < |parts|
    ensures |parts| <= |FoldEvent(parts, e)| && Lean(FoldEvent(parts, e))
    ensures Covers(parts[k], FoldEvent(parts, e)[k]) <==> !Downgrades(parts[k], e)
  {
    FoldLean(parts, e);
    if e.ToolResult? {
      ResultCovers(parts[k], e);
    } else {
      QuietCovers(parts, e, k);
    }
  }

  /** Only a result can take a stored field away. */
  lemma QuietCovers(parts: seq<MessagePart>, e: AgentEvent, k: nat)
    requires !Boundary(e) && !e.ToolResult? && k < |parts| && |parts| <= |FoldEvent(parts, e)|
    ensures Covers(parts[k], FoldEvent(parts, e)[k])
  {
  }

  lemma ResultCovers(p: MessagePart, e: AgentEvent)
    requires e.ToolResult? && (p.Tool? ==> p.output.None? && p.diff.None? && p.outputBytes.None?)
    ensures Covers(p, Resolve(p, e)) <==> !Downgrades(p, e)
  {
  }

  lemma FoldLean(parts: seq<MessagePart>, e: AgentEvent)
    requires Lean(parts)
    ensures Lean(FoldEvent(parts, e))
    ensures !Boundary(e) ==> |parts| <= |FoldEvent(parts, e)|
  {
  }

  // ── whole runs ───────────────────────────────────────────────────────────

  /** The writer after the events, with a commit tick after event `k` where `ticks[k]`. */
  function Run(events: seq<AgentEvent>, ticks: seq<bool>): (w: Writer)
    requires |ticks| == |events|
    ensures |w.stored| == |w.written|
  {
    if events == [] then FRESH
    else
      var n := |events| - 1;
      var w := Run(events[..n], ticks[..n]);
      if ticks[n] then Sync(w, FoldAll(events)) else w
  }

  /** The records after the stream is finished, which syncs once more. */
  function FinishedDoc(events: seq<AgentEvent>, ticks: seq<bool>): seq<DocPart>
    requires |ticks| == |events|
  {
    Sync(Run(events, ticks), FoldAll(events)).stored
  }

  ghost predicate NoBoundary(events: seq<AgentEvent>) {
    forall k :: 0 <= k < |events| ==> !Boundary(events[k])
  }

  ghost predicate DowngradeAt(events: seq<AgentEvent>, n: nat)
    requires n < |events|
  {
    exists k :: 0 <= k < |FoldAll(events[..n])| && Downgrades(FoldAll(events[..n])[k], events[n])
  }

  /** No tool that showed diff statistics later gets a result without a diff. */
  ghost predicate NoDowngrade(events: seq<AgentEvent>) {
    forall n :: 0 <= n < |events| ==> !DowngradeAt(events, n)
  }

  lemma {:induction false} FoldAllLean(events: seq<AgentEvent>)
    ensures Lean(FoldAll(events))
  {
    if events != [] {
      FoldAllLean(events[..|events| - 1]);
      FoldLean(FoldAll(events[..|events| - 1]), events[|events| - 1]);
    }
  }

  lemma StepCovers(events: seq<AgentEvent>)
    requires events != [] && !Boundary(events[|events| - 1])
    ensures CoversAll(FoldAll(events[..|events| - 1]), FoldAll(events)) <==> !DowngradeAt(events, |events| - 1)
    ensures |FoldAll(events[..|events| - 1])| <= |FoldAll(events)|
  {
    var parts, e := FoldAll(events[..|events| - 1]), events[|events| - 1];
    FoldAllLean(events[..|events| - 1]);
    FoldLean(parts, e);
    forall k | 0 <= k < |parts|
      ensures Covers(parts[k], FoldEvent(parts, e)[k]) <==> !Downgrades(parts[k], e)
    {
      FoldCovers(parts, e, k);
    }
  }

  lemma PrefixQuiet(events: seq<AgentEvent>)
    requires events != [] && NoBoundary(events) && NoDowngrade(events)
    ensures NoBoundary(events[..|events| - 1]) && NoDowngrade(events[..|events| - 1])
  {
    var init := events[..|events| - 1];
    forall n | 0 <= n < |init|
      ensures !DowngradeAt(init, n)
    {
      assert init[..n] == events[..n];
      assert !DowngradeAt(events, n);
    }
  }

  /** Whatever the ticks, the records are those of the parts last written, and those parts have only grown. */
  lemma {:induction false} RunFaithful(events: seq<AgentEvent>, ticks: seq<bool>)
    requires |ticks| == |events| && NoBoundary(events) && NoDowngrade(events)
    ensures Run(events, ticks).stored == ToDocParts(Run(events, ticks).written)
    ensures CoversAll(Run(events, ticks).written, FoldAll(events))
  {
    if events != [] {
      var n := |events| - 1;
      PrefixQuiet(events);
      RunFaithful(events[..n], ticks[..n]);
      StepCovers(events);
      assert !DowngradeAt(events, n);
      var w := Run(events[..n], ticks[..n]);
      forall k | 0 <= k < |w.written|
        ensures Covers(w.written[k], FoldAll(events)[k])
      {
        CoversTransitive(w.written[k], FoldAll(events[..n])[k], FoldAll(events)[k]);
      }
      SyncExact(w, FoldAll(events));
    }
  }

  lemma {:induction false} FinishedFaithful(events: seq<AgentEvent>, ticks: seq<bool>)
    requires |ticks| == |events| && NoBoundary(events) && NoDowngrade(events)
    ensures FinishedDoc(events, ticks) == ToDocParts(FoldAll(events))
  {
    RunFaithful(events, ticks);
    SyncExact(Run(events, ticks), FoldAll(events));
  }

  function EveryTick(n: nat): (ticks: seq<bool>)
    ensures |ticks| == n
  {
    seq(n, _ => true)
  }

  /** Committing after every event keeps the mirror equal to the fold. */
  lemma {:induction false} EveryTickMirrors(events: seq<AgentEvent>)
    requires NoBoundary(events) && NoDowngrade(events)
    ensures Run(events, EveryTick(|events|)).written == FoldAll(events)
    ensures Run(events, EveryTick(|events|)).stored == ToDocParts(FoldAll(events))
  {
    var n := |events|;
    RunFaithful(events, EveryTick(n));
    if n > 0 {
      var w := Run(events[..n - 1], EveryTick(n)[..n - 1]);
      PrefixQuiet(events);
      RunFaithful(events[..n - 1], EveryTick(n)[..n - 1]);
      StepCovers(events);
      SyncExact(w, FoldAll(events));
    }
  }

  /** So a downgrade shows at the next sync. */
  lemma {:induction false} DowngradeShows(events: seq<AgentEvent>)
    requires events != [] && NoBoundary(events)
    requires NoDowngrade(events[..|events| - 1]) && DowngradeAt(events, |events| - 1)
    ensures FinishedDoc(events, EveryTick(|events| - 1) + [false]) != ToDocParts(FoldAll(events))
  {
    var n := |events| - 1;
    EveryTickMirrors(events[..n]);
    assert (EveryTick(n) + [false])[..n] == EveryTick(n);
    assert Run(events, EveryTick(n) + [false]) == Run(events[..n], EveryTick(n));
    StepCovers(events);
    SyncExact(Run(events[..n], EveryTick(n)), FoldAll(events));
  }

  /** Every tick choice, at every point of the stream, leaves the records equal to a wholesale
      rewrite if and only if no tool is downgraded. */
  lemma WriterRefinesRewrite(events: seq<AgentEvent>)
    requires NoBoundary(events)
    ensures NoDowngrade(events) <==>
      forall n, ticks: seq<bool> :: 0 <= n <= |events| && |ticks| == n ==>
        FinishedDoc(events[..n], ticks) == ToDocParts(FoldAll(events[..n]))
  {
    if NoDowngrade(events) {
      forall n, ticks: seq<bool> | 0 <= n <= |events| && |ticks| == n
        ensures FinishedDoc(events[..n], ticks) == ToDocParts(FoldAll(events[..n]))
      {
        PrefixesQuiet(events, n);
        FinishedFaithful(events[..n], ticks);
      }
    } else {
      var n := FirstDowngrade(events, |events|);
      DowngradeShows(events[..n + 1]);
      var ticks := EveryTick(n) + [false];
      assert FinishedDoc(events[..n + 1], ticks) != ToDocParts(FoldAll(events[..n + 1]));
    }
  }

  lemma PrefixesQuiet(events: seq<AgentEvent>, m: nat)
    requires NoBoundary(events) && NoDowngrade(events) && m <= |events|
    ensures NoBoundary(events[..m]) && NoDowngrade(events[..m])
  {
    forall n | 0 <= n < m
      ensures !DowngradeAt(events[..m], n)
    {
      assert events[..m][..n] == events[..n];
      assert !DowngradeAt(events, n);
    }
  }

  lemma {:induction false} FirstDowngrade(events: seq<AgentEvent>, m: nat) returns (n: nat)
    requires NoBoundary(events) && m <= |events|
    requires exists k :: 0 <= k < m && DowngradeAt(events, k)
    ensures n < m && NoDowngrade(events[..n]) && NoBoundary(events[..n + 1])
    ensures events[..n + 1][..n] == events[..n] && DowngradeAt(events[..n + 1], n)
  {
    n := 0;
    while !DowngradeAt(events, n)
      invariant n < m
      invariant forall k :: 0 <= k < n ==> !DowngradeAt(events, k)
      decreases m - n
    {
      n := n + 1;
    }
    assert events[..n + 1][..n] == events[..n];
    forall k | 0 <= k < n
      ensures !DowngradeAt(events[..n], k)
    {
      assert events[..n][..k] == events[..k];
      assert !DowngradeAt(events, k);
    }
  }

  /** A tool shows diff statistics, then gets a result without a diff: synced after each of the first two
      events, the finished record still shows the old statistics. */
  lemma StaleStatsStay(id: string, call: Json, stat: DiffStat)
    ensures var events := [ToolCall(id, call), ToolResult(id, false, None, Some(stat)), ToolResult(id, false, None, None)];
      var doc := FinishedDoc(events, [true, true, false]);
      && |doc| == 1 && doc[0].diffStats == Some([stat])
      && |FoldAll(events)| == 1 && FoldAll(events)[0].Tool? && FoldAll(events)[0].diffStats == None
      && doc != ToDocParts(FoldAll(events))
  {
    var e1, e2, e3 := ToolCall(id, call), ToolResult(id, false, None, Some(stat)), ToolResult(id, false, None, None);
    var p1 := Tool(id, call, false, false, None, None, None, None, None, None);
    var p2 := Tool(id, call, false, true, None, None, None, None, None, Some([stat]));
    var p3 := Tool(id, call, false, true, None, None, None, None, None, None);
    ThreeFolds(id, call, stat);
    assert [] + [e1] == [e1] && [e1] + [e2] == [e1, e2] && [e1, e2] + [e3] == [e1, e2, e3];
    RunPush([], [], e1, true);
    RunPush([e1], [true], e2, true);
    RunPush([e1, e2], [true, true], e3, false);
    assert [] + [true] == [true] && [true] + [true] == [true, true] && [true, true] + [false] == [true, true, false];
    SyncOne(p1, p2);
    SyncOne(p2, p3);
    assert Sync(FRESH, [p1]) == Writer([ToDocPart(p1)], [p1]);
  }

  lemma ThreeFolds(id: string, call: Json, stat: DiffStat)
    ensures var e1, e2, e3 := ToolCall(id, call), ToolResult(id, false, None, Some(stat)), ToolResult(id, false, None, None);
      && FoldAll([e1]) == [Tool(id, call, false, false, None, None, None, None, None, None)]
      && FoldAll([e1, e2]) == [Tool(id, call, false, true, None, None, None, None, None, Some([stat]))]
      && FoldAll([e1, e2, e3]) == [Tool(id, call, false, true, None, None, None, None, None, None)]
  {
    var e1, e2, e3 := ToolCall(id, call), ToolResult(id, false, None, Some(stat)), ToolResult(id, false, None, None);
    FoldPush([], e1);
    FoldPush([e1], e2);
    FoldPush([e1, e2], e3);
    assert [] + [e1] == [e1] && [e1] + [e2] == [e1, e2] && [e1, e2] + [e3] == [e1, e2, e3];
  }

  lemma {:induction false} FoldPush(events: seq<AgentEvent>, e: AgentEvent)
    ensures FoldAll(events + [e]) == FoldEvent(FoldAll(events), e)
  {
    assert (events + [e])[..|events|] == events;
  }

  lemma {:induction false} RunPush(events: seq<AgentEvent>, ticks: seq<bool>, e: AgentEvent, tick: bool)
    requires |ticks| == |events|
    ensures Run(events + [e], ticks + [tick])
         == if tick then Sync(Run(events, ticks), FoldAll(events + [e])) else Run(events, ticks)
  {
    assert (events + [e])[..|events|] == events && (ticks + [tick])[..|ticks|] == ticks;
  }

  lemma SyncOne(was: MessagePart, now: MessagePart)
    requires was.Tool? && now.Tool? && was != now
    ensures forall rec :: Sync(Writer([rec], [was]), [now]) == Writer([UpdateFields(rec, now)], [now])
  {
  }
}
