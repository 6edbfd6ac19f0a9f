/**
 Applying one piece of any frame to any transcript (crates/doc/src/transcript_delta.rs): what goes in,
 where it lands, and exactly when the viewer is told it is out of step.
 */
module ApplyLaws {
  import opened Common
  import opened MessageParts
  import opened ListEdits
  import opened Picking
  import opened TranscriptDelta

  /** `at` is the first place of the id. */
  ghost predicate FirstAt(es: seq<Entry>, id: string, at: nat) {
    at < |es| && es[at].id == id && forall j :: 0 <= j < at ==> es[j].id != id
  }

  ghost predicate Absent(es: seq<Entry>, id: string) {
    forall j :: 0 <= j < |es| ==> es[j].id != id
  }

  lemma FirstIsPos(es: seq<Entry>, id: string)
    ensures forall at: nat :: FirstAt(es, id, at) <==> at == Pos(Ids(es), id) < |es|
    ensures Absent(es, id) <==> Pos(Ids(es), id) == |es|
  {
    var p := Pos(Ids(es), id);
    assert forall j :: 0 <= j < |es| ==> Ids(es)[j] == es[j].id;
    assert p < |es| ==> FirstAt(es, id, p);
    forall at: nat | FirstAt(es, id, at) ensures at == p {
      assert Ids(es)[at] == id;
    }
  }

  /** An upsert first takes out the entry with its id, then puts the new one at the front, or directly
      behind its anchor; without the anchor the viewer is out of step. */
  lemma UpsertExactly(es: seq<Entry>, u: Upsert) returns (rest: seq<Entry>)
    ensures forall at: nat :: FirstAt(es, u.entry.id, at) ==> rest == es[..at] + es[at + 1..]
    ensures Absent(es, u.entry.id) ==> rest == es
    ensures u.after.None? ==> ApplyUpsert(es, u) == Ok([u.entry] + rest)
    ensures u.after.Some? ==> forall at: nat :: FirstAt(rest, u.after.value, at) ==>
      ApplyUpsert(es, u) == Ok(rest[..at + 1] + [u.entry] + rest[at + 1..])
    ensures u.after.Some? && Absent(rest, u.after.value) ==> ApplyUpsert(es, u) == Err(MissingAnchor)
  {
    rest := DropId(es, u.entry.id);
    FirstIsPos(es, u.entry.id);
    if u.after.Some? {
      FirstIsPos(rest, u.after.value);
    }
  }

  /** The first text or commentary part with the id. */
  ghost predicate TextAt(e: Entry, part: string, k: nat) {
    && k < |e.parts| && (e.parts[k].Text? || e.parts[k].Commentary?) && e.parts[k].id == part
    && forall j :: 0 <= j < k ==> !((e.parts[j].Text? || e.parts[j].Commentary?) && e.parts[j].id == part)
  }

  lemma {:induction false} TextIsFound(e: Entry, part: string)
    ensures forall k: nat :: TextAt(e, part, k) <==> k == FindText(e.parts, part, 0) < |e.parts|
  {
  }

  /** A tail goes to the first entry and the first text part of those ids and nothing else changes; the
      viewer is out of step exactly when one is missing or the text does not come to the told length. */
  lemma AppendExactly(es: seq<Entry>, a: TextAppend)
    ensures Absent(es, a.entry) ==> ApplyAppend(es, a) == Err(MissingEntry)
    ensures forall at: nat :: FirstAt(es, a.entry, at) && (forall k: nat :: !TextAt(es[at], a.part, k)) ==>
      ApplyAppend(es, a) == Err(MissingPart)
    ensures forall at: nat, k: nat :: FirstAt(es, a.entry, at) && TextAt(es[at], a.part, k) ==>
      var p := es[at].parts[k];
      var grown := if p.Text? then MessagePart.Text(p.id, p.text + a.text) else MessagePart.Commentary(p.id, p.text + a.text);
      ApplyAppend(es, a) ==
        if |p.text| + |a.text| == a.len then Ok(es[at := es[at].(parts := es[at].parts[k := grown])])
        else Err(LengthMismatch)
  {
    FirstIsPos(es, a.entry);
    var at := Pos(Ids(es), a.entry);
    if at < |es| {
      TextIsFound(es[at], a.part);
      var k := FindText(es[at].parts, a.part, 0);
      assert k < |es[at].parts| ==> TextAt(es[at], a.part, k);
    }
  }

  ghost function Staying(es: seq<Entry>, gone: seq<Id>): (marks: seq<bool>)
    ensures |marks| == |es| && forall i :: 0 <= i < |es| ==> marks[i] == (es[i].id !in gone)
  {
    seq(|es|, i requires 0 <= i < |es| => es[i].id !in gone)
  }

  /** A removal leaves every other entry in order. */
  lemma {:induction false} RetainExactly(es: seq<Entry>, gone: seq<Id>)
    ensures Picks(Retain(es, gone), es, Staying(es, gone))
  {
    if es != [] {
      var init := es[..|es| - 1];
      RetainExactly(init, gone);
      assert Staying(es, gone)[..|init|] == Staying(init, gone);
      PicksSnoc(Retain(init, gone), Retain(es, gone), es, Staying(es, gone));
    }
  }

  /** Whatever frame is accepted, the transcript has as many entries as the frame says. */
  lemma CountHolds(es: seq<Entry>, frame: Frame)
    requires ApplyFrame(es, frame).Ok?
    ensures |ApplyFrame(es, frame).value| == if frame.Reset? then |frame.reset| else frame.count
  {
  }
}
