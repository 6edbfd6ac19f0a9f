/**
 Delta frames for the transcript watch (crates/doc/src/transcript_delta.rs).

 A frame carries either the whole transcript or what changed since the previous one.
 Text is modelled as its sequence of code units, so `len` is the length of that sequence.
 */
module TranscriptDelta {
  import opened Common
  import opened MessageParts
  import opened ListEdits

  datatype Role = User | Assistant | System

  datatype Status = Streaming | Complete | Aborted

  datatype Entry = Entry(id: string, role: Role, parts: seq<MessagePart>, createdAt: int, deviceId: string,
                         status: Option<Status>, continuationOf: Option<string>)

  datatype Upsert = Upsert(after: Option<string>, entry: Entry)

  datatype TextAppend = TextAppend(entry: string, part: string, text: string, len: nat)

  datatype Frame =
    | Reset(reset: seq<Entry>)
    | Delta(upsert: seq<Upsert>, append: seq<TextAppend>, remove: seq<string>, count: nat)

  datatype Desync = MissingAnchor | MissingEntry | MissingPart | LengthMismatch | CountMismatch

  function Ids(es: seq<Entry>): (ids: seq<Id>)
    ensures |ids| == |es|
    ensures forall i :: 0 <= i < |es| ==> ids[i] == es[i].id
  {
    seq(|es|, i requires 0 <= i < |es| => es[i].id)
  }

  // ── try_text_append ──────────────────────────────────────────────────────

  /** What scanning the first `n` part pairs found: `None` when some pair rules the fast path out. */
  function Scan(prev: Entry, next: Entry, n: nat): Option<Option<TextAppend>>
    requires n <= |prev.parts| == |next.parts|
  {
    if n == 0 then Some(None)
    else
      match Scan(prev, next, n - 1)
      case None => None
      case Some(found) =>
        var p, q := prev.parts[n - 1], next.parts[n - 1];
        if p == q then Some(found)
        else if SameTextKind(p, q) && p.id == q.id && p.text <= q.text && found.None? then
          Some(Some(TextAppend(next.id, q.id, q.text[|p.text|..], |q.text|)))
        else None
  }

  predicate SameHeader(prev: Entry, next: Entry) {
    && prev.id == next.id && prev.role == next.role && prev.createdAt == next.createdAt
    && prev.deviceId == next.deviceId && prev.status == next.status
    && prev.continuationOf == next.continuationOf && |prev.parts| == |next.parts|
  }

  function TextAppendFor(prev: Entry, next: Entry): Option<TextAppend> {
    if SameHeader(prev, next) then
      match Scan(prev, next, |prev.parts|)
      case None => None
      case Some(found) => found
    else None
  }

  method TryTextAppend(prev: Entry, next: Entry) returns (append: Option<TextAppend>)
    ensures append == TextAppendFor(prev, next)
  {
    if !SameHeader(prev, next) {
      return None;
    }
    append := None;
    var n := 0;
    while n < |prev.parts|
      invariant 0 <= n <= |prev.parts|
      invariant Scan(prev, next, n) == Some(append)
    {
      var p, q := prev.parts[n], next.parts[n];
      if p != q {
        if !SameTextKind(p, q) || p.id != q.id || !(p.text <= q.text) || append.Some? {
          ScanRejects(prev, next, n + 1, |prev.parts|);
          return None;
        }
        append := Some(TextAppend(next.id, q.id, q.text[|p.text|..], |q.text|));
      }
      n := n + 1;
    }
  }

  lemma {:induction false} ScanRejects(prev: Entry, next: Entry, n: nat, m: nat)
    requires n <= m <= |prev.parts| == |next.parts| && Scan(prev, next, n).None?
    ensures Scan(prev, next, m).None?
  {
    if n < m {
      ScanRejects(prev, next, n, m - 1);
    }
  }

  // ── diff_transcript ──────────────────────────────────────────────────────

  /** The position a map built from `es` remembers for `id`: the last one. */
  function LastPos(es: seq<Entry>, id: string): (r: Option<nat>)
    ensures r.None? <==> id !in Ids(es)
    ensures r.Some? ==> r.value < |es| && es[r.value].id == id
  {
    if es == [] then None
    else if es[|es| - 1].id == id then Some(|es| - 1)
    else
      assert Ids(es) == Ids(es[..|es| - 1]) + [es[|es| - 1].id];
      LastPos(es[..|es| - 1], id)
  }

  datatype Plan = Keep | Append(tail: TextAppend) | Send

  /** What the diff does with `next[i]`. */
  function PlanFor(prev: seq<Entry>, next: seq<Entry>, i: nat): Plan
    requires i < |next|
  {
    match LastPos(prev, next[i].id)
    case None => Send
    case Some(at) =>
      if Before(Ids(prev), at) != Before(Ids(next), i) then Send
      else if prev[at] == next[i] then Keep
      else
        match TextAppendFor(prev[at], next[i])
        case None => Send
        case Some(tail) => Append(tail)
  }

  function Upserts(prev: seq<Entry>, next: seq<Entry>, n: nat): seq<Upsert>
    requires n <= |next|
  {
    if n == 0 then []
    else Upserts(prev, next, n - 1) +
         if PlanFor(prev, next, n - 1).Send? then [Upsert(Before(Ids(next), n - 1), next[n - 1])] else []
  }

  function Appends(prev: seq<Entry>, next: seq<Entry>, n: nat): seq<TextAppend>
    requires n <= |next|
  {
    if n == 0 then []
    else Appends(prev, next, n - 1) +
         match PlanFor(prev, next, n - 1)
         case Append(tail) => [tail]
         case _ => []
  }

  /** The entries of the first `n` whose id is not among `ids`, as ids. */
  function MissingFrom(es: seq<Entry>, ids: seq<Id>, n: nat): seq<Id>
    requires n <= |es|
  {
    if n == 0 then []
    else MissingFrom(es, ids, n - 1) + if es[n - 1].id in ids then [] else [es[n - 1].id]
  }

  function Diff(prev: seq<Entry>, next: seq<Entry>): Frame {
    var upsert := Upserts(prev, next, |next|);
    if |upsert| * 2 >= (if |next| == 0 then 1 else |next|) && |next| > 4 then Reset(next)
    else Delta(upsert, Appends(prev, next, |next|), MissingFrom(prev, Ids(next), |prev|), |next|)
  }

  method DiffTranscript(prev: seq<Entry>, next: seq<Entry>) returns (frame: Frame)
    ensures frame == Diff(prev, next)
  {
    var nextIds := Ids(next);
    var remove: seq<Id> := [];
    for k := 0 to |prev|
      invariant remove == MissingFrom(prev, nextIds, k)
    {
      if prev[k].id !in nextIds {
        remove := remove + [prev[k].id];
      }
    }
    var upsert: seq<Upsert>, append: seq<TextAppend> := [], [];
    for i := 0 to |next|
      invariant upsert == Upserts(prev, next, i)
      invariant append == Appends(prev, next, i)
    {
      var entry := next[i];
      var after := Before(nextIds, i);
      match LastPos(prev, entry.id) {
        case None =>
          upsert := upsert + [Upsert(after, entry)];
        case Some(at) =>
          var prevAfter := Before(Ids(prev), at);
          if prev[at] == entry && prevAfter == after {
          } else {
            var tail := TryTextAppend(prev[at], entry);
            if prevAfter == after && tail.Some? {
              append := append + [tail.value];
            } else {
              upsert := upsert + [Upsert(after, entry)];
            }
          }
      }
    }
    if |upsert| * 2 >= (if |next| == 0 then 1 else |next|) && |next| > 4 {
      return Reset(next);
    }
    return Delta(upsert, append, remove, |next|);
  }

  // ── apply_transcript_frame ───────────────────────────────────────────────

  function Retain(es: seq<Entry>, gone: seq<Id>): seq<Entry> {
    if es == [] then []
    else Retain(es[..|es| - 1], gone) + if es[|es| - 1].id in gone then [] else [es[|es| - 1]]
  }

  function DropId(es: seq<Entry>, id: string): seq<Entry> {
    var at := Pos(Ids(es), id);
    if at < |es| then es[..at] + es[at + 1..] else es
  }

  function ApplyUpsert(es: seq<Entry>, u: Upsert): Result<seq<Entry>, Desync> {
    var rest := DropId(es, u.entry.id);
    match u.after
    case None => Ok([u.entry] + rest)
    case Some(anchor) =>
      var at := Pos(Ids(rest), anchor);
      if at < |rest| then Ok(rest[..at + 1] + [u.entry] + rest[at + 1..]) else Err(MissingAnchor)
  }

  function ApplyUpserts(es: seq<Entry>, us: seq<Upsert>): Result<seq<Entry>, Desync> {
    if us == [] then Ok(es)
    else
      match ApplyUpserts(es, us[..|us| - 1])
      case Err(e) => Err(e)
      case Ok(cur) => ApplyUpsert(cur, us[|us| - 1])
  }

  /** The first text or commentary part with this id. */
  function FindText(parts: seq<MessagePart>, id: string, from: nat): (r: nat)
    requires from <= |parts|
    ensures from <= r <= |parts|
    ensures r < |parts| ==> parts[r].Textual() && parts[r].id == id
    ensures forall k :: from <= k < r ==> !(parts[k].Textual() && parts[k].id == id)
    decreases |parts| - from
  {
    if from == |parts| || (parts[from].Textual() && parts[from].id == id) then from
    else FindText(parts, id, from + 1)
  }

  function Grow(p: MessagePart, text: string): MessagePart
    requires p.Textual()
  {
    match p
    case Text(id, head) => Text(id, head + text)
    case Commentary(id, head) => Commentary(id, head + text)
  }

  function AppendToEntry(e: Entry, a: TextAppend): Result<Entry, Desync> {
    var k := FindText(e.parts, a.part, 0);
    if k == |e.parts| then Err(MissingPart)
    else
      var grown := Grow(e.parts[k], a.text);
      if |grown.text| != a.len then Err(LengthMismatch)
      else Ok(e.(parts := e.parts[k := grown]))
  }

  function ApplyAppend(es: seq<Entry>, a: TextAppend): Result<seq<Entry>, Desync> {
    var at := Pos(Ids(es), a.entry);
    if at == |es| then Err(MissingEntry)
    else
      match AppendToEntry(es[at], a)
      case Err(e) => Err(e)
      case Ok(grown) => Ok(es[at := grown])
  }

  function ApplyAppends(es: seq<Entry>, tails: seq<TextAppend>): Result<seq<Entry>, Desync> {
    if tails == [] then Ok(es)
    else
      match ApplyAppends(es, tails[..|tails| - 1])
      case Err(e) => Err(e)
      case Ok(cur) => ApplyAppend(cur, tails[|tails| - 1])
  }

  function ApplyFrame(es: seq<Entry>, frame: Frame): Result<seq<Entry>, Desync> {
    match frame
    case Reset(all) => Ok(all)
    case Delta(upsert, append, remove, count) =>
      match ApplyUpserts(Retain(es, remove), upsert)
      case Err(e) => Err(e)
      case Ok(placed) =>
        match ApplyAppends(placed, append)
        case Err(e) => Err(e)
        case Ok(grown) => if |grown| != count then Err(CountMismatch) else Ok(grown)
  }

  lemma {:induction false} UpsertsFail(es: seq<Entry>, us: seq<Upsert>, i: nat)
    requires i <= |us| && ApplyUpserts(es, us[..i]).Err?
    ensures ApplyUpserts(es, us) == ApplyUpserts(es, us[..i])
    decreases |us| - i
  {
    if i == |us| {
      assert us[..i] == us;
    } else {
      assert us[..i + 1][..i] == us[..i];
      UpsertsFail(es, us, i + 1);
    }
  }

  lemma {:induction false} AppendsFail(es: seq<Entry>, tails: seq<TextAppend>, i: nat)
    requires i <= |tails| && ApplyAppends(es, tails[..i]).Err?
    ensures ApplyAppends(es, tails) == ApplyAppends(es, tails[..i])
    decreases |tails| - i
  {
    if i == |tails| {
      assert tails[..i] == tails;
    } else {
      assert tails[..i + 1][..i] == tails[..i];
      AppendsFail(es, tails, i + 1);
    }
  }

  /** A viewer's copy of the transcript, edited in place. After a desync its contents are unspecified. */
  class TranscriptView {
    var entries: seq<Entry>

    constructor ()
      ensures entries == []
    {
      entries := [];
    }

    method Apply(frame: Frame) returns (desync: Option<Desync>)
      modifies this
      ensures match ApplyFrame(old(entries), frame)
              case Ok(all) => desync.None? && entries == all
              case Err(e) => desync == Some(e)
    {
      match frame {
        case Reset(all) =>
          entries := all;
          return None;
        case Delta(upsert, append, remove, count) =>
          RemoveGone(remove);
          desync := PlaceUpserts(upsert);
          if desync.Some? {
            return;
          }
          desync := GrowTexts(append);
          if desync.Some? {
            return;
          }
          if |entries| != count {
            return Some(CountMismatch);
          }
      }
    }

    method RemoveGone(gone: seq<Id>)
      modifies this
      ensures entries == Retain(old(entries), gone)
    {
      var kept: seq<Entry> := [];
      for k := 0 to |entries|
        invariant entries == old(entries)
        invariant kept == Retain(entries[..k], gone)
      {
        assert entries[..k + 1][..k] == entries[..k];
        if entries[k].id !in gone {
          kept := kept + [entries[k]];
        }
      }
      assert entries[..|entries|] == entries;
      entries := kept;
    }

    method PlaceOne(u: Upsert) returns (desync: Option<Desync>)
      modifies this
      ensures match ApplyUpsert(old(entries), u)
              case Ok(all) => desync.None? && entries == all
              case Err(e) => desync == Some(e)
    {
      entries := DropId(entries, u.entry.id);
      if u.after.None? {
        entries := [u.entry] + entries;
        return None;
      }
      var anchor := Pos(Ids(entries), u.after.value);
      if anchor == |entries| {
        return Some(MissingAnchor);
      }
      entries := entries[..anchor + 1] + [u.entry] + entries[anchor + 1..];
      return None;
    }

    method PlaceUpserts(upsert: seq<Upsert>) returns (desync: Option<Desync>)
      modifies this
      ensures match ApplyUpserts(old(entries), upsert)
              case Ok(all) => desync.None? && entries == all
              case Err(e) => desync == Some(e)
    {
      for i := 0 to |upsert|
        invariant ApplyUpserts(old(entries), upsert[..i]) == Ok(entries)
      {
        assert upsert[..i + 1][..i] == upsert[..i];
        desync := PlaceOne(upsert[i]);
        if desync.Some? {
          UpsertsFail(old(entries), upsert, i + 1);
          return;
        }
      }
      assert upsert[..|upsert|] == upsert;
      desync := None;
    }

    method GrowTexts(append: seq<TextAppend>) returns (desync: Option<Desync>)
      modifies this
      ensures match ApplyAppends(old(entries), append)
              case Ok(all) => desync.None? && entries == all
              case Err(e) => desync == Some(e)
    {
      for i := 0 to |append|
        invariant ApplyAppends(old(entries), append[..i]) == Ok(entries)
      {
        assert append[..i + 1][..i] == append[..i];
        match ApplyAppend(entries, append[i]) {
          case Err(e) =>
            AppendsFail(old(entries), append, i + 1);
            return Some(e);
          case Ok(all) =>
            entries := all;
        }
      }
      assert append[..|append|] == append;
      desync := None;
    }
  }
}
