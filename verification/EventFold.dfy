/** Folding agent events into the parts of the live segment (crates/doc/src/parts.rs). */
module EventFold {
  import opened Common
  import opened Digits
  import opened MessageParts

  /** `Silent` stands for the events the transcript ignores. A diff arrives as its line statistics. */
  datatype AgentEvent =
    | SessionStarted
    | Steered
    | TextDelta(text: string)
    | CommentaryDelta(text: string)
    | NoticeEvent(level: NoticeLevel, message: string)
    | ToolCall(id: string, call: Json)
    | ToolResult(id: string, isError: bool, output: Option<string>, diff: Option<DiffStat>)
    | InputRequested(requestId: string, questions: Json)
    | InputResolved(requestId: string)
    | ErrorEvent(message: string)
    | Done(error: Option<string>)
    | Silent

  /** A turn boundary, which empties the accumulator. */
  predicate Boundary(e: AgentEvent) {
    e.SessionStarted? || e.Steered?
  }

  predicate IsTool(p: MessagePart, id: string) {
    p.Tool? && p.id == id
  }

  /** The first tool part with this id. */
  function FindTool(parts: seq<MessagePart>, id: string, from: nat): (r: nat)
    requires from <= |parts|
    ensures from <= r <= |parts|
    ensures r < |parts| ==> IsTool(parts[r], id)
    ensures forall k :: from <= k < r ==> !IsTool(parts[k], id)
    decreases |parts| - from
  {
    if from == |parts| || IsTool(parts[from], id) then from else FindTool(parts, id, from + 1)
  }

  function Resolve(p: MessagePart, e: AgentEvent): MessagePart
    requires e.ToolResult?
  {
    if IsTool(p, e.id) then
      p.(isError := e.isError, resolved := true, output := None, outputBytes := None, diff := None,
         diffStats := if e.diff.Some? then Some([e.diff.value]) else None)
    else p
  }

  function Answer(p: MessagePart, requestId: string): MessagePart {
    if p.Input? && p.requestId == requestId then p.(resolved := true) else p
  }

  function FoldEvent(parts: seq<MessagePart>, e: AgentEvent): seq<MessagePart> {
    var n := |parts|;
    match e
    case SessionStarted => []
    case Steered => []
    case TextDelta(text) =>
      if n > 0 && parts[n - 1].Text? then parts[n - 1 := Text(parts[n - 1].id, parts[n - 1].text + text)]
      else parts + [Text("t" + Decimal(n), text)]
    case CommentaryDelta(text) =>
      if n > 0 && parts[n - 1].Commentary? then
        parts[n - 1 := Commentary(parts[n - 1].id, parts[n - 1].text + text)]
      else parts + [Commentary("c" + Decimal(n), text)]
    case NoticeEvent(level, message) => parts + [Notice("n" + Decimal(n), level, message)]
    case ToolCall(id, call) =>
      var at := FindTool(parts, id, 0);
      if at < n then parts[at := parts[at].(call := call)]
      else parts + [Tool(id, call, false, false, None, None, None, None, None, None)]
    case ToolResult(_, _, _, _) => seq(n, k requires 0 <= k < n => Resolve(parts[k], e))
    case InputRequested(requestId, questions) =>
      if exists k :: 0 <= k < n && parts[k].id == "in-" + requestId then parts
      else parts + [Input("in-" + requestId, requestId, questions, false)]
    case InputResolved(requestId) => seq(n, k requires 0 <= k < n => Answer(parts[k], requestId))
    case ErrorEvent(message) => parts + [Error("e" + Decimal(n), message)]
    case Done(error) => if error.Some? then parts + [Error("e" + Decimal(n), error.value)] else parts
    case Silent => parts
  }

  function FoldAll(events: seq<AgentEvent>): seq<MessagePart> {
    if events == [] then [] else FoldEvent(FoldAll(events[..|events| - 1]), events[|events| - 1])
  }

  /** The accumulator of a live segment, folded in place. */
  class Segment {
    var parts: seq<MessagePart>

    constructor ()
      ensures parts == []
    {
      parts := [];
    }

    method Fold(e: AgentEvent)
      modifies this
      ensures parts == FoldEvent(old(parts), e)
    {
      match e {
        case SessionStarted => parts := [];
        case Steered => parts := [];
        case TextDelta(text) => GrowText(text);
        case CommentaryDelta(text) => GrowCommentary(text);
        case NoticeEvent(level, message) => parts := parts + [Notice("n" + Decimal(|parts|), level, message)];
        case ToolCall(id, call) => RefreshTool(id, call);
        case ToolResult(_, _, _, _) => ResolveTools(e);
        case InputRequested(requestId, questions) => AskOnce(requestId, questions);
        case InputResolved(requestId) => AnswerInputs(requestId);
        case ErrorEvent(message) => parts := parts + [Error("e" + Decimal(|parts|), message)];
        case Done(error) =>
          if error.Some? {
            parts := parts + [Error("e" + Decimal(|parts|), error.value)];
          }
        case Silent =>
      }
    }

    /** Extends the trailing text part, or starts one. */
    method GrowText(text: string)
      modifies this
      ensures parts == FoldEvent(old(parts), TextDelta(text))
    {
      var n := |parts|;
      if n > 0 && parts[n - 1].Text? {
        var tail := parts[n - 1].text + text;
        parts := parts[n - 1 := Text(parts[n - 1].id, tail)];
      } else {
        parts := parts + [Text("t" + Decimal(n), text)];
      }
    }

    method GrowCommentary(text: string)
      modifies this
      ensures parts == FoldEvent(old(parts), CommentaryDelta(text))
    {
      var n := |parts|;
      if n > 0 && parts[n - 1].Commentary? {
        var tail := parts[n - 1].text + text;
        parts := parts[n - 1 := Commentary(parts[n - 1].id, tail)];
      } else {
        parts := parts + [Commentary("c" + Decimal(n), text)];
      }
    }

    /** Refreshes the call of the first tool with this id, or appends one. */
    method RefreshTool(id: string, call: Json)
      modifies this
      ensures parts == FoldEvent(old(parts), ToolCall(id, call))
    {
      var k := 0;
      while k < |parts| && !(parts[k].Tool? && parts[k].id == id)
        invariant 0 <= k <= |parts| && FindTool(parts, id, k) == FindTool(parts, id, 0)
      {
        k := k + 1;
      }
      if k < |parts| {
        parts := parts[k := parts[k].(call := call)];
      } else {
        parts := parts + [Tool(id, call, false, false, None, None, None, None, None, None)];
      }
    }

    method ResolveTools(e: AgentEvent)
      requires e.ToolResult?
      modifies this
      ensures parts == FoldEvent(old(parts), e)
    {
      var k := 0;
      while k < |parts|
        invariant 0 <= k <= |parts| == |old(parts)|
        invariant forall m :: 0 <= m < k ==> parts[m] == Resolve(old(parts)[m], e)
        invariant forall m :: k <= m < |parts| ==> parts[m] == old(parts)[m]
      {
        if parts[k].Tool? && parts[k].id == e.id {
          var stats := if e.diff.Some? then Some([e.diff.value]) else None;
          parts := parts[k := Tool(parts[k].id, parts[k].call, e.isError, true, None, None, parts[k].outputRef, None,
                                   parts[k].diffRef, stats)];
        }
        k := k + 1;
      }
    }

    method AskOnce(requestId: string, questions: Json)
      modifies this
      ensures parts == FoldEvent(old(parts), InputRequested(requestId, questions))
    {
      var id := "in-" + requestId;
      var k := 0;
      while k < |parts| && parts[k].id != id
        invariant 0 <= k <= |parts|
        invariant forall m :: 0 <= m < k ==> parts[m].id != id
      {
        k := k + 1;
      }
      if k == |parts| {
        parts := parts + [Input(id, requestId, questions, false)];
      }
    }

    method AnswerInputs(requestId: string)
      modifies this
      ensures parts == FoldEvent(old(parts), InputResolved(requestId))
    {
      var k := 0;
      while k < |parts|
        invariant 0 <= k <= |parts| == |old(parts)|
        invariant forall m :: 0 <= m < k ==> parts[m] == Answer(old(parts)[m], requestId)
        invariant forall m :: k <= m < |parts| ==> parts[m] == old(parts)[m]
      {
        if parts[k].Input? && parts[k].requestId == requestId {
          parts := parts[k := Input(parts[k].id, requestId, parts[k].questions, true)];
        }
        k := k + 1;
      }
    }
  }
}
