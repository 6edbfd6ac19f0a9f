/**
 What the fold of a stream holds, told by the events alone (crates/doc/src/parts.rs): which events
 open a part, and what each part shows after all that came later.
 */
module FoldLaw {
  import opened Common
  import opened Digits
  import opened MessageParts
  import opened EventFold

  // ── the reading of a stream ──────────────────────────────────────────────

  function Uttered(e: AgentEvent, aside: bool): string {
    if e.TextDelta? && !aside then e.text else if e.CommentaryDelta? && aside then e.text else ""
  }

  /** The deltas since the last turn boundary, end to end. */
  function Said(events: seq<AgentEvent>, aside: bool): string {
    if events == [] then ""
    else
      var e := events[|events| - 1];
      if Boundary(e) then "" else Said(events[..|events| - 1], aside) + Uttered(e, aside)
  }

  /** The tool was called since the last boundary. */
  ghost predicate Called(events: seq<AgentEvent>, id: string) {
    events != [] &&
    var e := events[|events| - 1];
    !Boundary(e) && ((e.ToolCall? && e.id == id) || Called(events[..|events| - 1], id))
  }

  /** The request was put since the last boundary. */
  ghost predicate Asked(events: seq<AgentEvent>, requestId: string) {
    events != [] &&
    var e := events[|events| - 1];
    !Boundary(e) && ((e.InputRequested? && e.requestId == requestId) || Asked(events[..|events| - 1], requestId))
  }

  /** After `events`, `e` opens a new part: a delta unless the newest part is of its kind, the first
      call of a tool, the first request under its id, and every notice, error and failed end. */
  ghost predicate Opens(events: seq<AgentEvent>, e: AgentEvent)
    decreases |events|, 1
  {
    match e
    case TextDelta(_) => !TrailIs(events, false)
    case CommentaryDelta(_) => !TrailIs(events, true)
    case NoticeEvent(_, _) => true
    case ToolCall(id, _) => !Called(events, id)
    case InputRequested(requestId, _) => !Asked(events, requestId) && !Called(events, "in-" + requestId)
    case ErrorEvent(_) => true
    case Done(error) => error.Some?
    case _ => false
  }

  /** The newest part was opened by a delta of this kind. */
  ghost predicate TrailIs(events: seq<AgentEvent>, aside: bool)
    decreases |events|, 0
  {
    events != [] &&
    var init, e := events[..|events| - 1], events[|events| - 1];
    if Boundary(e) then false
    else if Opens(init, e) then if aside then e.CommentaryDelta? else e.TextDelta?
    else TrailIs(init, aside)
  }

  /** Events that can open a part. */
  predicate Opening(e: AgentEvent) {
    || e.TextDelta? || e.CommentaryDelta? || e.NoticeEvent? || e.ToolCall? || e.InputRequested? || e.ErrorEvent?
    || (e.Done? && e.error.Some?)
  }

  /** The places of the events since the last boundary that opened a part, in order. */
  ghost function Openers(events: seq<AgentEvent>): (at: seq<nat>)
    ensures forall k :: 0 <= k < |at| ==> at[k] < |events| && Opening(events[at[k]])
    ensures forall j, k :: 0 <= j < k < |at| ==> at[j] < at[k]
  {
    if events == [] then []
    else
      var init, e := events[..|events| - 1], events[|events| - 1];
      if Boundary(e) then [] else if Opens(init, e) then Openers(init) + [|init|] else Openers(init)
  }

  /** The last call of the tool that was first called at place `n`. */
  function LastCall(events: seq<AgentEvent>, n: nat): Json
    requires n < |events| && events[n].ToolCall?
  {
    var e := events[|events| - 1];
    if e.ToolCall? && e.id == events[n].id then e.call else LastCall(events[..|events| - 1], n)
  }

  /** The last result for the tool, if one came at or after place `from`. */
  function LastResult(events: seq<AgentEvent>, id: string, from: nat): (r: Option<AgentEvent>)
    ensures r.Some? ==> r.value.ToolResult? && r.value.id == id
  {
    if |events| <= from then None
    else
      var e := events[|events| - 1];
      if e.ToolResult? && e.id == id then Some(e) else LastResult(events[..|events| - 1], id, from)
  }

  /** The request was resolved at or after place `from`. */
  ghost predicate Resolved(events: seq<AgentEvent>, requestId: string, from: nat) {
    exists m :: from <= m < |events| && events[m] == InputResolved(requestId)
  }

  /** The `k`-th part, opened by the event at place `n`, as it stands after `events`; the next part
      opened at place `end`. */
  ghost function Told(events: seq<AgentEvent>, n: nat, end: nat, k: nat): MessagePart
    requires n < end <= |events| && Opening(events[n])
  {
    match events[n]
    case TextDelta(_) => Text("t" + Decimal(k), Said(events[n..end], false))
    case CommentaryDelta(_) => Commentary("c" + Decimal(k), Said(events[n..end], true))
    case NoticeEvent(level, message) => Notice("n" + Decimal(k), level, message)
    case ToolCall(id, _) =>
      match LastResult(events, id, n) {
        case None => Tool(id, LastCall(events, n), false, false, None, None, None, None, None, None)
        case Some(result) =>
          Tool(id, LastCall(events, n), result.isError, true, None, None, None, None, None,
               if result.diff.Some? then Some([result.diff.value]) else None)
      }
    case InputRequested(requestId, questions) =>
      Input("in-" + requestId, requestId, questions, Resolved(events, requestId, n))
    case ErrorEvent(message) => Error("e" + Decimal(k), message)
    case Done(error) => Error("e" + Decimal(k), error.value)
  }

  /** The place where the part after the `k`-th opens. */
  ghost function End(events: seq<AgentEvent>, k: nat): nat
    requires k < |Openers(events)|
  {
    if k + 1 < |Openers(events)| then Openers(events)[k + 1] else |events|
  }

  /** What the stream tells of its `k`-th part. */
  ghost function Part(events: seq<AgentEvent>, k: nat): MessagePart
    requires k < |Openers(events)|
  {
    Told(events, Openers(events)[k], End(events, k), k)
  }

  // ── openers ──────────────────────────────────────────────────────────────

  lemma {:induction false} OpenersPush(init: seq<AgentEvent>, e: AgentEvent)
    ensures var at := Openers(init);
      Openers(init + [e]) == if Boundary(e) then [] else if Opens(init, e) then at + [|init|] else at
  {
    assert (init + [e])[..|init|] == init;
  }

  lemma {:induction false} TrailShows(events: seq<AgentEvent>, aside: bool)
    ensures var at := Openers(events);
      TrailIs(events, aside)
      <==> at != [] && var e := events[at[|at| - 1]]; if aside then e.CommentaryDelta? else e.TextDelta?
  {
    if events != [] {
      TrailShows(events[..|events| - 1], aside);
    }
  }

  ghost predicate CallAt(events: seq<AgentEvent>, k: nat, id: string)
    requires k < |Openers(events)|
  {
    var e := events[Openers(events)[k]];
    e.ToolCall? && e.id == id
  }

  ghost predicate RequestAt(events: seq<AgentEvent>, k: nat, requestId: string)
    requires k < |Openers(events)|
  {
    var e := events[Openers(events)[k]];
    e.InputRequested? && e.requestId == requestId
  }

  lemma {:induction false} CalledShows(events: seq<AgentEvent>, id: string)
    ensures Called(events, id) <==> exists k :: 0 <= k < |Openers(events)| && CallAt(events, k, id)
  {
    if events != [] {
      var init, e := events[..|events| - 1], events[|events| - 1];
      CalledShows(init, id);
      if !Boundary(e) {
        OpenersKeep(events, id);
      }
    }
  }

  lemma OpenersKeep(events: seq<AgentEvent>, id: string)
    requires events != [] && !Boundary(events[|events| - 1])
    ensures var init, e := events[..|events| - 1], events[|events| - 1];
      (exists k :: 0 <= k < |Openers(events)| && CallAt(events, k, id))
      <==> (exists k :: 0 <= k < |Openers(init)| && CallAt(init, k, id)) || (Opens(init, e) && e.ToolCall? && e.id == id)
  {
    var init, e := events[..|events| - 1], events[|events| - 1];
    if k :| 0 <= k < |Openers(events)| && CallAt(events, k, id) {
      if k < |Openers(init)| {
        assert CallAt(init, k, id);
      }
    }
    if k :| 0 <= k < |Openers(init)| && CallAt(init, k, id) {
      assert CallAt(events, k, id);
    }
    if Opens(init, e) && e.ToolCall? && e.id == id {
      assert CallAt(events, |Openers(init)|, id);
    }
  }

  /** One part per tool. */
  lemma {:induction false} CallsApart(events: seq<AgentEvent>, j: nat, k: nat, id: string)
    requires j < k < |Openers(events)| && CallAt(events, j, id)
    ensures !CallAt(events, k, id)
  {
    var init, e := events[..|events| - 1], events[|events| - 1];
    if k < |Openers(init)| {
      CallsApart(init, j, k, id);
    } else {
      CalledShows(init, id);
      assert CallAt(init, j, id);
    }
  }

  /** The place of the first part with this id, for ids of inputs. */
  ghost predicate NameAt(events: seq<AgentEvent>, k: nat, requestId: string)
    requires k < |Openers(events)|
  {
    CallAt(events, k, "in-" + requestId) || RequestAt(events, k, requestId)
  }

  lemma {:induction false} AskedShows(events: seq<AgentEvent>, requestId: string)
    ensures Asked(events, requestId) || Called(events, "in-" + requestId)
            <==> exists k :: 0 <= k < |Openers(events)| && NameAt(events, k, requestId)
  {
    if events != [] {
      var init, e := events[..|events| - 1], events[|events| - 1];
      AskedShows(init, requestId);
      if !Boundary(e) {
        NamesKeep(events, requestId);
      }
    }
  }

  lemma NamesKeep(events: seq<AgentEvent>, requestId: string)
    requires events != [] && !Boundary(events[|events| - 1])
    ensures var init, e := events[..|events| - 1], events[|events| - 1];
      (exists k :: 0 <= k < |Openers(events)| && NameAt(events, k, requestId))
      <==> (exists k :: 0 <= k < |Openers(init)| && NameAt(init, k, requestId))
           || (Opens(init, e) && ((e.ToolCall? && e.id == "in-" + requestId)
                                  || (e.InputRequested? && e.requestId == requestId)))
  {
    var init, e := events[..|events| - 1], events[|events| - 1];
    if k :| 0 <= k < |Openers(events)| && NameAt(events, k, requestId) {
      if k < |Openers(init)| {
        assert NameAt(init, k, requestId);
      }
    }
    if k :| 0 <= k < |Openers(init)| && NameAt(init, k, requestId) {
      assert NameAt(events, k, requestId);
    }
    if Opens(init, e) && ((e.ToolCall? && e.id == "in-" + requestId) || (e.InputRequested? && e.requestId == requestId)) {
      assert NameAt(events, |Openers(init)|, requestId);
    }
  }

  // ── one more event ───────────────────────────────────────────────────────

  /** What one more event does to a part that is already there. */
  ghost function Evolve(p: MessagePart, e: AgentEvent, trailing: bool): MessagePart {
    match e
    case TextDelta(text) => if trailing && p.Text? then Text(p.id, p.text + text) else p
    case CommentaryDelta(text) => if trailing && p.Commentary? then Commentary(p.id, p.text + text) else p
    case ToolCall(id, call) => if IsTool(p, id) then p.(call := call) else p
    case ToolResult(_, _, _, _) => Resolve(p, e)
    case InputResolved(requestId) => Answer(p, requestId)
    case _ => p
  }

  lemma {:induction false} SaidPush(events: seq<AgentEvent>, e: AgentEvent, aside: bool)
    ensures Said(events + [e], aside) == if Boundary(e) then "" else Said(events, aside) + Uttered(e, aside)
  {
    assert (events + [e])[..|events|] == events;
  }

  lemma ToldText(init: seq<AgentEvent>, e: AgentEvent, n: nat, k: nat)
    requires n < |init| && Opening(init[n]) && !Boundary(e) && (init[n].TextDelta? || init[n].CommentaryDelta?)
    ensures Told(init + [e], n, |init| + 1, k) == Evolve(Told(init, n, |init|, k), e, true)
  {
    assert (init + [e])[n..|init| + 1] == init[n..|init|] + [e];
    SaidPush(init[n..|init|], e, init[n].CommentaryDelta?);
  }

  lemma ToldTextStays(init: seq<AgentEvent>, e: AgentEvent, n: nat, end: nat, k: nat)
    requires n < end <= |init| && Opening(init[n]) && (init[n].TextDelta? || init[n].CommentaryDelta?)
    ensures Told(init + [e], n, end, k) == Told(init, n, end, k)
  {
    assert (init + [e])[n..end] == init[n..end];
  }

  lemma ToldTool(init: seq<AgentEvent>, e: AgentEvent, n: nat, end: nat, next: nat, k: nat, trailing: bool)
    requires n < end <= |init| && n < next <= |init| + 1 && init[n].ToolCall?
    ensures Told(init + [e], n, next, k) == Evolve(Told(init, n, end, k), e, trailing)
  {
    assert (init + [e])[..|init|] == init;
  }

  lemma ToldInput(init: seq<AgentEvent>, e: AgentEvent, n: nat, end: nat, next: nat, k: nat, trailing: bool)
    requires n < end <= |init| && n < next <= |init| + 1 && init[n].InputRequested?
    ensures Told(init + [e], n, next, k) == Evolve(Told(init, n, end, k), e, trailing)
  {
    var events, r := init + [e], init[n].requestId;
    if m :| n <= m < |init| && init[m] == InputResolved(r) {
      assert events[m] == InputResolved(r);
    }
    if e == InputResolved(r) {
      assert events[|init|] == InputResolved(r);
    }
    if m :| n <= m < |events| && events[m] == InputResolved(r) {
      if m < |init| {
        assert init[m] == InputResolved(r);
      }
    }
  }

  lemma ToldStep(init: seq<AgentEvent>, e: AgentEvent, n: nat, end: nat, k: nat, trailing: bool)
    requires n < end <= |init| && Opening(init[n]) && !Boundary(e) && (trailing ==> end == |init|)
    ensures Told(init + [e], n, if trailing then |init| + 1 else end, k) == Evolve(Told(init, n, end, k), e, trailing)
  {
    var next := if trailing then |init| + 1 else end;
    match init[n] {
      case ToolCall(_, _) => ToldTool(init, e, n, end, next, k, trailing);
      case InputRequested(_, _) => ToldInput(init, e, n, end, next, k, trailing);
      case TextDelta(_) => ToldTextStep(init, e, n, end, k, trailing);
      case CommentaryDelta(_) => ToldTextStep(init, e, n, end, k, trailing);
      case _ =>
    }
  }

  lemma ToldTextStep(init: seq<AgentEvent>, e: AgentEvent, n: nat, end: nat, k: nat, trailing: bool)
    requires n < end <= |init| && !Boundary(e) && (trailing ==> end == |init|)
    requires init[n].TextDelta? || init[n].CommentaryDelta?
    ensures Told(init + [e], n, if trailing then |init| + 1 else end, k) == Evolve(Told(init, n, end, k), e, trailing)
  {
    if trailing {
      ToldText(init, e, n, k);
    } else {
      ToldTextStays(init, e, n, end, k);
    }
  }

  lemma {:induction false} PartStep(init: seq<AgentEvent>, e: AgentEvent, k: nat)
    requires k < |Openers(init)| && !Boundary(e)
    ensures k < |Openers(init + [e])|
    ensures Part(init + [e], k) == Evolve(Part(init, k), e, k == |Openers(init)| - 1 && !Opens(init, e))
  {
    EndStep(init, e, k);
    ToldStep(init, e, Openers(init)[k], End(init, k), k, k == |Openers(init)| - 1 && !Opens(init, e));
  }

  lemma {:induction false} EndStep(init: seq<AgentEvent>, e: AgentEvent, k: nat)
    requires k < |Openers(init)| && !Boundary(e)
    ensures k < |Openers(init + [e])| && Openers(init + [e])[k] == Openers(init)[k] < End(init, k)
    ensures var trailing := k == |Openers(init)| - 1 && !Opens(init, e);
      && End(init + [e], k) == (if trailing then |init| + 1 else End(init, k))
      && End(init, k) <= |init| && (trailing ==> End(init, k) == |init|)
  {
    OpenersPush(init, e);
  }

  /** A part as it is when the event has just opened it. */
  ghost function Fresh(e: AgentEvent, k: nat): MessagePart
    requires Opening(e)
  {
    match e
    case TextDelta(text) => Text("t" + Decimal(k), text)
    case CommentaryDelta(text) => Commentary("c" + Decimal(k), text)
    case NoticeEvent(level, message) => Notice("n" + Decimal(k), level, message)
    case ToolCall(id, call) => Tool(id, call, false, false, None, None, None, None, None, None)
    case InputRequested(requestId, questions) => Input("in-" + requestId, requestId, questions, false)
    case ErrorEvent(message) => Error("e" + Decimal(k), message)
    case Done(error) => Error("e" + Decimal(k), error.value)
  }

  lemma ToldFresh(init: seq<AgentEvent>, e: AgentEvent, k: nat)
    requires Opening(e)
    ensures Told(init + [e], |init|, |init| + 1, k) == Fresh(e, k)
  {
    var events := init + [e];
    match e {
      case TextDelta(_) => SaidOnce(init, e, false);
      case CommentaryDelta(_) => SaidOnce(init, e, true);
      case ToolCall(id, _) => assert events[..|init|] == init && LastResult(init, id, |init|) == None;
      case _ =>
    }
  }

  lemma {:induction false} SaidOnce(init: seq<AgentEvent>, e: AgentEvent, aside: bool)
    requires !Boundary(e)
    ensures Said((init + [e])[|init|..|init| + 1], aside) == Uttered(e, aside)
  {
    assert (init + [e])[|init|..|init| + 1] == [e];
    SaidOne(e, aside);
  }

  lemma {:induction false} SaidOne(e: AgentEvent, aside: bool)
    requires !Boundary(e)
    ensures Said([e], aside) == Uttered(e, aside)
  {
    assert [e][..0] == [];
  }

  lemma {:induction false} PartOpens(init: seq<AgentEvent>, e: AgentEvent)
    requires Opens(init, e)
    ensures Opening(e) && Openers(init + [e]) == Openers(init) + [|init|]
    ensures Part(init + [e], |Openers(init)|) == Fresh(e, |Openers(init)|)
  {
    OpenersPush(init, e);
    ToldFresh(init, e, |Openers(init)|);
  }

  // ── the fold, part by part ───────────────────────────────────────────────

  /** A part is there that takes the event up. */
  ghost predicate Taken(parts: seq<MessagePart>, e: AgentEvent) {
    match e
    case TextDelta(_) => parts != [] && parts[|parts| - 1].Text?
    case CommentaryDelta(_) => parts != [] && parts[|parts| - 1].Commentary?
    case ToolCall(id, _) => exists k :: 0 <= k < |parts| && IsTool(parts[k], id)
    case InputRequested(requestId, _) => exists k :: 0 <= k < |parts| && parts[k].id == "in-" + requestId
    case _ => !Opening(e)
  }

  lemma FoldOpens(parts: seq<MessagePart>, e: AgentEvent)
    requires Opening(e) && !Taken(parts, e)
    ensures FoldEvent(parts, e) == parts + [Fresh(e, |parts|)]
  {
  }

  ghost predicate OneTool(parts: seq<MessagePart>, id: string) {
    forall j, k :: 0 <= j < k < |parts| && IsTool(parts[j], id) ==> !IsTool(parts[k], id)
  }

  lemma FoldStays(parts: seq<MessagePart>, e: AgentEvent, k: nat)
    requires Taken(parts, e) && !Boundary(e) && k < |parts| && (e.ToolCall? ==> OneTool(parts, e.id))
    ensures |FoldEvent(parts, e)| == |parts| && FoldEvent(parts, e)[k] == Evolve(parts[k], e, k == |parts| - 1)
  {
    if e.ToolCall? {
      var at := FindTool(parts, e.id, 0);
      assert at < |parts|;
    }
  }

  lemma FoldKeepsLength(parts: seq<MessagePart>, e: AgentEvent)
    requires Taken(parts, e) && !Boundary(e)
    ensures |FoldEvent(parts, e)| == |parts|
  {
  }

  /** What is seen of an event in the part it opened. */
  lemma {:induction false} PartKind(events: seq<AgentEvent>, k: nat)
    requires k < |Openers(events)|
    ensures var p, e := Part(events, k), events[Openers(events)[k]];
      && (p.Text? <==> e.TextDelta?)
      && (p.Commentary? <==> e.CommentaryDelta?)
      && (p.Tool? <==> e.ToolCall?) && (p.Tool? ==> p.id == e.id)
      && (p.Input? <==> e.InputRequested?) && (p.Input? ==> p.id == "in-" + e.requestId)
      && (p.id != [] && p.id[0] == 'i' ==> p.Tool? || p.Input?)
  {
  }

  /** `parts` is what the stream tells. */
  ghost predicate Tells(events: seq<AgentEvent>, parts: seq<MessagePart>) {
    |parts| == |Openers(events)| && forall k :: 0 <= k < |parts| ==> parts[k] == Part(events, k)
  }

  lemma {:induction false} ToolSeen(events: seq<AgentEvent>, parts: seq<MessagePart>, id: string)
    requires Tells(events, parts)
    ensures OneTool(parts, id)
    ensures Called(events, id) <==> exists k :: 0 <= k < |parts| && IsTool(parts[k], id)
  {
    CalledShows(events, id);
    forall k | 0 <= k < |parts| ensures IsTool(parts[k], id) <==> CallAt(events, k, id) {
      PartKind(events, k);
    }
    forall j, k | 0 <= j < k < |parts| && IsTool(parts[j], id) ensures !IsTool(parts[k], id) {
      CallsApart(events, j, k, id);
    }
  }

  lemma {:induction false} NameSeen(events: seq<AgentEvent>, parts: seq<MessagePart>, requestId: string)
    requires Tells(events, parts)
    ensures Asked(events, requestId) || Called(events, "in-" + requestId)
            <==> exists k :: 0 <= k < |parts| && parts[k].id == "in-" + requestId
  {
    AskedShows(events, requestId);
    forall k | 0 <= k < |parts| ensures parts[k].id == "in-" + requestId <==> NameAt(events, k, requestId) {
      NameOf(events, k, requestId);
    }
  }

  lemma {:induction false} NameOf(events: seq<AgentEvent>, k: nat, requestId: string)
    requires k < |Openers(events)|
    ensures Part(events, k).id == "in-" + requestId <==> NameAt(events, k, requestId)
  {
    PartKind(events, k);
    var p, e, id := Part(events, k), events[Openers(events)[k]], "in-" + requestId;
    assert id[0] == 'i';
    if p.Input? && p.id == id {
      assert p.id[3..] == e.requestId && id[3..] == requestId;
    }
  }

  lemma {:induction false} TrailSeen(events: seq<AgentEvent>, parts: seq<MessagePart>, aside: bool)
    requires Tells(events, parts)
    ensures TrailIs(events, aside)
            <==> parts != [] && var p := parts[|parts| - 1]; if aside then p.Commentary? else p.Text?
  {
    TrailShows(events, aside);
    if parts != [] {
      PartKind(events, |parts| - 1);
    }
  }

  /** The events alone decide whether a part takes the event up. */
  lemma {:induction false} OpensExactly(init: seq<AgentEvent>, e: AgentEvent, parts: seq<MessagePart>)
    requires Tells(init, parts) && !Boundary(e)
    ensures Opens(init, e) <==> !Taken(parts, e)
    ensures Opens(init, e) ==> Opening(e)
  {
    match e {
      case TextDelta(_) => TrailSeen(init, parts, false);
      case CommentaryDelta(_) => TrailSeen(init, parts, true);
      case ToolCall(id, _) => ToolSeen(init, parts, id);
      case InputRequested(requestId, _) => NameSeen(init, parts, requestId);
      case _ =>
    }
  }

  /** An opening event changes no earlier part. */
  lemma OpenLeaves(parts: seq<MessagePart>, e: AgentEvent, k: nat)
    requires Opening(e) && !Taken(parts, e) && k < |parts|
    ensures Evolve(parts[k], e, false) == parts[k]
  {
  }

  /** The `k`-th of `parts` is what the stream tells. */
  ghost predicate TellsOne(events: seq<AgentEvent>, parts: seq<MessagePart>, k: nat) {
    k < |parts| && k < |Openers(events)| && parts[k] == Part(events, k)
  }

  lemma TellsAt(init: seq<AgentEvent>, e: AgentEvent, parts: seq<MessagePart>, k: nat)
    requires Tells(init, parts) && !Boundary(e) && k < |parts|
    ensures TellsOne(init + [e], FoldEvent(parts, e), k)
  {
    PartStep(init, e, k);
    OpensExactly(init, e, parts);
    if Opens(init, e) {
      FoldOpens(parts, e);
      OpenLeaves(parts, e, k);
    } else {
      if e.ToolCall? {
        ToolSeen(init, parts, e.id);
      }
      FoldStays(parts, e, k);
    }
  }

  lemma {:induction false} TellsNew(init: seq<AgentEvent>, e: AgentEvent, parts: seq<MessagePart>)
    requires Tells(init, parts) && Opens(init, e)
    ensures TellsOne(init + [e], FoldEvent(parts, e), |parts|)
  {
    OpensExactly(init, e, parts);
    FoldOpens(parts, e);
    PartOpens(init, e);
  }

  lemma {:induction false} TellsCount(init: seq<AgentEvent>, e: AgentEvent, parts: seq<MessagePart>)
    requires Tells(init, parts) && !Boundary(e)
    ensures |FoldEvent(parts, e)| == |Openers(init + [e])| == |parts| + if Opens(init, e) then 1 else 0
  {
    OpensExactly(init, e, parts);
    OpenersPush(init, e);
    if Opens(init, e) {
      FoldOpens(parts, e);
    } else {
      FoldKeepsLength(parts, e);
    }
  }

  lemma TellsStep(init: seq<AgentEvent>, e: AgentEvent, parts: seq<MessagePart>)
    requires Tells(init, parts)
    ensures Tells(init + [e], FoldEvent(parts, e))
  {
    if Boundary(e) {
      OpenersPush(init, e);
    } else {
      TellsCount(init, e, parts);
      TellsEach(init, e, parts, |FoldEvent(parts, e)|);
      TellsAll(init + [e], FoldEvent(parts, e));
    }
  }

  lemma {:induction false} TellsEach(init: seq<AgentEvent>, e: AgentEvent, parts: seq<MessagePart>, n: nat)
    requires Tells(init, parts) && !Boundary(e) && n <= |parts| + if Opens(init, e) then 1 else 0
    ensures forall k: nat :: k < n ==> TellsOne(init + [e], FoldEvent(parts, e), k)
  {
    forall k: nat | k < n ensures TellsOne(init + [e], FoldEvent(parts, e), k) {
      TellsAny(init, e, parts, k);
    }
  }

  lemma {:induction false} TellsAny(init: seq<AgentEvent>, e: AgentEvent, parts: seq<MessagePart>, k: nat)
    requires Tells(init, parts) && !Boundary(e) && (k < |parts| || (k == |parts| && Opens(init, e)))
    ensures TellsOne(init + [e], FoldEvent(parts, e), k)
  {
    if k < |parts| {
      TellsAt(init, e, parts, k);
    } else {
      TellsNew(init, e, parts);
    }
  }

  lemma {:induction false} TellsAll(events: seq<AgentEvent>, parts: seq<MessagePart>)
    requires |parts| == |Openers(events)| && forall k: nat :: k < |parts| ==> TellsOne(events, parts, k)
    ensures Tells(events, parts)
  {
    forall k | 0 <= k < |parts| ensures parts[k] == Part(events, k) {
      assert TellsOne(events, parts, k);
    }
  }

  /** The fold of any stream: one part per opening event of the turn, in order, each showing what the
      events say of it. A tool shows its last call and the outcome of the last result since it was
      first called, an input whether its request was resolved since, a text its own run of deltas. */
  lemma {:induction false} FoldTells(events: seq<AgentEvent>)
    ensures |FoldAll(events)| == |Openers(events)|
    ensures forall k :: 0 <= k < |FoldAll(events)| ==> FoldAll(events)[k] == Part(events, k)
  {
    if events != [] {
      var init, e := events[..|events| - 1], events[|events| - 1];
      FoldTells(init);
      assert events == init + [e];
      TellsStep(init, e, FoldAll(init));
    }
  }
}
