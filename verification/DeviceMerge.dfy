/**
 Merging a superseded device into another (crates/doc/src/registry.rs, `merge_device`): one batch
 re-homes its chats and spaces, coalesces spaces with the same path, and tombstones the rest.
 A row is readable when its identifying fields parse; unreadable rows are skipped, as in the source.
 */
module DeviceMerge {
  import opened Common
  import opened Hlc
  import opened RegistryMerge
  import opened RegistryHistory
  import opened RegistryDoc

  const CHATS := "chats"
  const SPACES := "spaces"
  const SESSIONS := "sessions"
  const DEVICES := "devices"

  predicate HasText(row: Row, f: string) {
    f in row.fields && row.fields[f].Str?
  }

  predicate OptText(row: Row, f: string) {
    f in row.fields ==> row.fields[f].Str?
  }

  function TextOf(row: Row, f: string): Option<string> {
    if HasText(row, f) then Some(row.fields[f].text) else None
  }

  predicate Readable(row: Row) {
    && HasText(row, "deviceId")
    && (row.key.kind == CHATS ==> HasText(row, "id") && OptText(row, "spaceId") && OptText(row, "checkoutId"))
    && (row.key.kind == SPACES ==> HasText(row, "id") && HasText(row, "path") && OptText(row, "checkoutId"))
    && (row.key.kind == SESSIONS ==> HasText(row, "chatId"))
  }

  function DeviceOf(row: Row): string
    requires Readable(row)
  {
    row.fields["deviceId"].text
  }

  /** The id a reader sees for the row. */
  function IdOf(row: Row): string
    requires Readable(row) && row.key.kind in {CHATS, SPACES, SESSIONS}
  {
    if row.key.kind == SESSIONS then row.fields["chatId"].text else row.fields["id"].text
  }

  /** A live, readable row of one of the three owned kinds. */
  predicate Listed(table: Table, k: Key) {
    k in table && !table[k].deleted && k.kind in {CHATS, SPACES, SESSIONS}
    && table[k].key == k && Readable(table[k])
  }

  predicate OwnedBy(table: Table, k: Key, device: string) {
    Listed(table, k) && DeviceOf(table[k]) == device
  }

  // ── the batch ────────────────────────────────────────────────────────────

  function OnDevice(rows: seq<Row>, device: string): seq<Row>
    requires forall r :: r in rows ==> Readable(r)
  {
    if rows == [] then []
    else OnDevice(rows[..|rows| - 1], device)
         + if DeviceOf(rows[|rows| - 1]) == device then [rows[|rows| - 1]] else []
  }

  /** The space a map keyed by `f` keeps for `value`: the last one listed. */
  function LastWith(spaces: seq<Row>, f: string, value: string): (r: Option<Row>)
    ensures r.Some? ==> r.value in spaces && TextOf(r.value, f) == Some(value)
    ensures r.None? ==> forall s :: s in spaces ==> TextOf(s, f) != Some(value)
  {
    if spaces == [] then None
    else if TextOf(spaces[|spaces| - 1], f) == Some(value) then Some(spaces[|spaces| - 1])
    else LastWith(spaces[..|spaces| - 1], f, value)
  }

  function Twin(space: Row, theirs: seq<Row>): Option<Row> {
    match TextOf(space, "path")
    case None => None
    case Some(path) => LastWith(theirs, "path", path)
  }

  function OwnSpace(chat: Row, ours: seq<Row>): Option<Row> {
    match TextOf(chat, "spaceId")
    case None => None
    case Some(id) => LastWith(ours, "id", id)
  }

  function OrNull(s: Option<string>): Value {
    if s.Some? then Str(s.value) else Null
  }

  function ChatWrites(chat: Row, ours: seq<Row>, theirs: seq<Row>, target: string): map<string, Value>
    requires forall s :: s in theirs ==> Readable(s) && s.key.kind == SPACES
  {
    var home := map["deviceId" := Str(target)];
    match OwnSpace(chat, ours)
    case None => home
    case Some(space) =>
      match Twin(space, theirs)
      case Some(twin) =>
        home["spaceId" := Str(IdOf(twin))]["checkoutId" := OrNull(TextOf(twin, "checkoutId"))]
      case None => home["checkoutId" := Null]
  }

  function ChatOp(chat: Row, ours: seq<Row>, theirs: seq<Row>, target: string, hlc: Clock): RowOp
    requires forall s :: s in theirs ==> Readable(s) && s.key.kind == SPACES
    requires Readable(chat) && chat.key.kind == CHATS
  {
    RowOp(Key(CHATS, IdOf(chat)), Update, Some(ChatWrites(chat, ours, theirs, target)), hlc, None)
  }

  function SpaceOp(space: Row, theirs: seq<Row>, target: string, hlc: Clock): RowOp
    requires Readable(space) && space.key.kind == SPACES
  {
    if Twin(space, theirs).Some? then RowOp(Key(SPACES, IdOf(space)), Delete, None, hlc, None)
    else
      RowOp(Key(SPACES, IdOf(space)), Update,
            Some(map["deviceId" := Str(target), "gitCheckedAt" := Null, "checkoutId" := Null]), hlc, None)
  }

  function SessionOp(session: Row, hlc: Clock): RowOp
    requires Readable(session) && session.key.kind == SESSIONS
  {
    RowOp(Key(SESSIONS, IdOf(session)), Delete, None, hlc, None)
  }

  /** The op for one row of the source device. */
  function OwnedOp(row: Row, ours: seq<Row>, theirs: seq<Row>, target: string, hlc: Clock): RowOp
    requires Readable(row) && row.key.kind in {CHATS, SPACES, SESSIONS}
    requires forall s :: s in theirs ==> Readable(s) && s.key.kind == SPACES
  {
    if row.key.kind == CHATS then ChatOp(row, ours, theirs, target, hlc)
    else if row.key.kind == SPACES then SpaceOp(row, theirs, target, hlc)
    else SessionOp(row, hlc)
  }

  ghost predicate AllKind(rows: seq<Row>, kind: string) {
    forall r :: r in rows ==> Readable(r) && r.key.kind == kind
  }

  /** All rows of the source device, in the order the batch takes them. */
  function Owned(chats: seq<Row>, spaces: seq<Row>, sessions: seq<Row>, source: string): seq<Row>
    requires AllKind(chats, CHATS) && AllKind(spaces, SPACES) && AllKind(sessions, SESSIONS)
  {
    OnDevice(chats, source) + OnDevice(spaces, source) + OnDevice(sessions, source)
  }

  lemma {:induction false} OnDeviceFacts(rows: seq<Row>, device: string)
    requires forall r :: r in rows ==> Readable(r)
    ensures forall r :: r in OnDevice(rows, device) <==> r in rows && DeviceOf(r) == device
    ensures KeysDistinct(rows) ==> KeysDistinct(OnDevice(rows, device))
  {
    if rows != [] {
      var init, last := rows[..|rows| - 1], rows[|rows| - 1];
      OnDeviceFacts(init, device);
      assert rows == init + [last];
      if KeysDistinct(rows) {
        assert KeysDistinct(init);
        assert forall i :: 0 <= i < |OnDevice(init, device)| ==> OnDevice(init, device)[i] in init;
      }
    }
  }

  ghost predicate KeysDistinct(rows: seq<Row>) {
    forall i, j :: 0 <= i < j < |rows| ==> rows[i].key != rows[j].key
  }

  function MapOps(rows: seq<Row>, ours: seq<Row>, theirs: seq<Row>, target: string, hlc: Clock): (ops: seq<RowOp>)
    requires forall r :: r in rows ==> Readable(r) && r.key.kind in {CHATS, SPACES, SESSIONS}
    requires forall s :: s in theirs ==> Readable(s) && s.key.kind == SPACES
    ensures |ops| == |rows|
    ensures forall i :: 0 <= i < |rows| ==> ops[i] == OwnedOp(rows[i], ours, theirs, target, hlc)
  {
    seq(|rows|, i requires 0 <= i < |rows| => OwnedOp(rows[i], ours, theirs, target, hlc))
  }

  function MergeBatch(chats: seq<Row>, spaces: seq<Row>, sessions: seq<Row>, source: string, target: string, hlc: Clock)
    : seq<RowOp>
    requires AllKind(chats, CHATS) && AllKind(spaces, SPACES) && AllKind(sessions, SESSIONS)
  {
    OnDeviceFacts(chats, source);
    OnDeviceFacts(spaces, source);
    OnDeviceFacts(sessions, source);
    OnDeviceFacts(spaces, target);
    MapOps(Owned(chats, spaces, sessions, source), OnDevice(spaces, source), OnDevice(spaces, target), target, hlc)
    + [RowOp(Key(DEVICES, source), Delete, None, hlc, None)]
  }

  // ── hypotheses ───────────────────────────────────────────────────────────

  /** `rows` lists the live readable rows of a kind, each once, in any order. */
  ghost predicate Lists(table: Table, kind: string, rows: seq<Row>) {
    && (forall r :: r in rows <==> r.key.kind == kind && Listed(table, r.key) && table[r.key] == r)
    && KeysDistinct(rows)
  }

  /** Every readable row carries its own id. */
  ghost predicate SelfNamed(table: Table) {
    forall k :: Listed(table, k) ==> IdOf(table[k]) == k.id
  }

  /** Every chat's space is a live space on the chat's own device. */
  ghost predicate SpacesMatch(table: Table) {
    forall k :: Listed(table, k) && k.kind == CHATS && HasText(table[k], "spaceId") ==>
      OwnedBy(table, Key(SPACES, table[k].fields["spaceId"].text), DeviceOf(table[k]))
  }

  /** The fresh clock is newer than everything on the row. */
  ghost predicate Beats(row: Row, hlc: Clock) {
    forall c :: c in AllClocks(row) ==> Less(c, hlc)
  }

  ghost predicate Touched(table: Table, k: Key, source: string) {
    OwnedBy(table, k, source) || k == Key(DEVICES, source)
  }

  /** What the theorem asks for: both device rows are visible, and the clock beats what it touches. */
  ghost predicate Mergeable(table: Table, source: string, target: string, hlc: Clock) {
    && source != target
    && Key(DEVICES, source) in table && !table[Key(DEVICES, source)].deleted
    && Key(DEVICES, target) in table && !table[Key(DEVICES, target)].deleted
    && SelfNamed(table) && SpacesMatch(table)
    && forall k :: k in table && Touched(table, k, source) ==> Beats(table[k], hlc)
  }

  // ── one op per touched key ───────────────────────────────────────────────

  ghost predicate OpKeysDistinct(ops: seq<RowOp>) {
    forall i, j :: 0 <= i < j < |ops| ==> ops[i].key != ops[j].key
  }

  lemma {:induction false} ReplayDistinct(table: Table, ops: seq<RowOp>, k: Key)
    requires OpKeysDistinct(ops)
    ensures forall i :: 0 <= i < |ops| && ops[i].key == k ==>
      RowAt(Replay(table, ops), k) == ApplyOp(RowAt(table, k), ops[i])
    ensures (forall i :: 0 <= i < |ops| ==> ops[i].key != k) ==> RowAt(Replay(table, ops), k) == RowAt(table, k)
  {
    if ops != [] {
      var init, op := ops[..|ops| - 1], ops[|ops| - 1];
      ReplayDistinct(table, init, k);
      var before := Replay(table, init);
      if op.key == k {
        assert forall i :: 0 <= i < |init| ==> init[i].key != k;
        assert RowAt(before, k) == RowAt(table, k);
      } else {
        assert RowAt(Replay(table, ops), k) == RowAt(before, k);
      }
    }
  }

  ghost predicate Inputs(table: Table, chats: seq<Row>, spaces: seq<Row>, sessions: seq<Row>) {
    && Lists(table, CHATS, chats) && Lists(table, SPACES, spaces) && Lists(table, SESSIONS, sessions)
    && AllKind(chats, CHATS) && AllKind(spaces, SPACES) && AllKind(sessions, SESSIONS)
  }

  lemma ConcatKeys(a: seq<Row>, b: seq<Row>, kinds: set<string>, kind: string)
    requires KeysDistinct(a) && KeysDistinct(b) && kind !in kinds
    requires forall r :: r in a ==> r.key.kind in kinds
    requires forall r :: r in b ==> r.key.kind == kind
    ensures KeysDistinct(a + b)
  {
    assert forall i :: 0 <= i < |a| ==> a[i] in a;
    assert forall i :: 0 <= i < |b| ==> b[i] in b;
  }

  lemma {:induction false} ListedOnDevice(table: Table, kind: string, rows: seq<Row>, device: string)
    requires Lists(table, kind, rows) && AllKind(rows, kind)
    ensures KeysDistinct(OnDevice(rows, device))
    ensures forall r :: r in OnDevice(rows, device) <==>
      r.key.kind == kind && OwnedBy(table, r.key, device) && table[r.key] == r
  {
    OnDeviceFacts(rows, device);
  }

  lemma OwnedFacts(table: Table, chats: seq<Row>, spaces: seq<Row>, sessions: seq<Row>, source: string)
    requires Inputs(table, chats, spaces, sessions)
    ensures var rows := Owned(chats, spaces, sessions, source);
      && KeysDistinct(rows)
      && (forall r :: r in rows <==> OwnedBy(table, r.key, source) && table[r.key] == r)
  {
    var a, b, c := OnDevice(chats, source), OnDevice(spaces, source), OnDevice(sessions, source);
    ListedOnDevice(table, CHATS, chats, source);
    ListedOnDevice(table, SPACES, spaces, source);
    ListedOnDevice(table, SESSIONS, sessions, source);
    ConcatKeys(a, b, {CHATS}, SPACES);
    ConcatKeys(a + b, c, {CHATS, SPACES}, SESSIONS);
  }

  lemma OwnedOpKey(table: Table, k: Key, ours: seq<Row>, theirs: seq<Row>, target: string, hlc: Clock)
    requires Listed(table, k) && SelfNamed(table)
    requires forall s :: s in theirs ==> Readable(s) && s.key.kind == SPACES
    ensures OwnedOp(table[k], ours, theirs, target, hlc).key == k
  {
  }

  ghost function After(table: Table, chats: seq<Row>, spaces: seq<Row>, sessions: seq<Row>,
                       source: string, target: string, hlc: Clock): Table
    requires AllKind(chats, CHATS) && AllKind(spaces, SPACES) && AllKind(sessions, SESSIONS)
  {
    Replay(table, MergeBatch(chats, spaces, sessions, source, target, hlc))
  }

  /** The whole effect, key by key. */
  lemma {:induction false} AfterAt(table: Table, chats: seq<Row>, spaces: seq<Row>, sessions: seq<Row>,
                                   source: string, target: string, hlc: Clock, k: Key)
    requires Inputs(table, chats, spaces, sessions) && SelfNamed(table)
    requires AllKind(OnDevice(spaces, target), SPACES)
    ensures var after := After(table, chats, spaces, sessions, source, target, hlc);
      && (OwnedBy(table, k, source) ==>
            RowAt(after, k) == ApplyOp(Some(table[k]),
              OwnedOp(table[k], OnDevice(spaces, source), OnDevice(spaces, target), target, hlc)))
      && (k == Key(DEVICES, source) ==>
            RowAt(after, k) == ApplyOp(RowAt(table, k), RowOp(k, Delete, None, hlc, None)))
      && (!Touched(table, k, source) ==> RowAt(after, k) == RowAt(table, k))
  {
    var rows := Owned(chats, spaces, sessions, source);
    var ours, theirs := OnDevice(spaces, source), OnDevice(spaces, target);
    OwnedFacts(table, chats, spaces, sessions, source);
    var ops := MergeBatch(chats, spaces, sessions, source, target, hlc);
    forall i | 0 <= i < |rows|
      ensures ops[i].key == rows[i].key && ops[i] == OwnedOp(rows[i], ours, theirs, target, hlc)
      ensures OwnedBy(table, rows[i].key, source) && table[rows[i].key] == rows[i]
    {
      assert rows[i] in rows;
      OwnedOpKey(table, rows[i].key, ours, theirs, target, hlc);
    }
    assert OpKeysDistinct(ops);
    ReplayDistinct(table, ops, k);
    if OwnedBy(table, k, source) {
      assert table[k] in rows;
      var i :| 0 <= i < |rows| && rows[i] == table[k];
      assert ops[i].key == k;
    }
    if k == Key(DEVICES, source) {
      assert ops[|rows|].key == k;
    }
  }

  // ── what each op does ────────────────────────────────────────────────────

  lemma BeatsWins(row: Row, op: RowOp, f: string)
    requires !row.deleted && Beats(row, op.hlc) && op.clocks.None? && f in op.Writes()
    ensures Wins(row, op, f)
  {
    if f in row.clocks {
      assert row.clocks[f] in row.clocks.Values;
    }
  }

  lemma BeatsDeletes(row: Row, op: RowOp)
    requires !row.deleted && Beats(row, op.hlc) && op.op.Delete?
    ensures ApplyOp(Some(row), op) == Some(Bury(row, op.hlc))
  {
    assert IsNewest(MaxClock(row), AllClocks(row));
  }

  /** After a winning update every written field has the written value and every other field is kept. */
  lemma UpdateAt(row: Row, op: RowOp, f: string)
    requires !row.deleted && Beats(row, op.hlc) && op.clocks.None? && op.op.Update?
    ensures ApplyOp(Some(row), op) == Some(MergeFields(row, op))
    ensures Get(MergeFields(row, op).fields, f)
            == if f in op.Writes() then if op.Writes()[f] == Null then None else Some(op.Writes()[f])
               else Get(row.fields, f)
  {
    MergeAt(row, op, f);
    if f in op.Writes() {
      BeatsWins(row, op, f);
    }
  }

  lemma SessionAfter(row: Row, hlc: Clock)
    requires Readable(row) && row.key.kind == SESSIONS && !row.deleted && Beats(row, hlc)
    ensures ApplyOp(Some(row), SessionOp(row, hlc)) == Some(Bury(row, hlc))
  {
    BeatsDeletes(row, SessionOp(row, hlc));
  }

  lemma SpaceAfter(row: Row, theirs: seq<Row>, target: string, hlc: Clock)
    requires Readable(row) && row.key.kind == SPACES && !row.deleted && Beats(row, hlc)
    ensures var next := ApplyOp(Some(row), SpaceOp(row, theirs, target, hlc));
      if Twin(row, theirs).Some? then next == Some(Bury(row, hlc))
      else
        && next.Some? && !next.value.deleted && next.value.key == row.key && Readable(next.value)
        && DeviceOf(next.value) == target && IdOf(next.value) == IdOf(row)
        && TextOf(next.value, "path") == TextOf(row, "path")
  {
    var op := SpaceOp(row, theirs, target, hlc);
    if Twin(row, theirs).Some? {
      BeatsDeletes(row, op);
    } else {
      UpdateAt(row, op, "deviceId");
      UpdateAt(row, op, "id");
      UpdateAt(row, op, "path");
      UpdateAt(row, op, "checkoutId");
    }
  }

  lemma ChatAfter(row: Row, ours: seq<Row>, theirs: seq<Row>, target: string, hlc: Clock)
    requires Readable(row) && row.key.kind == CHATS && !row.deleted && Beats(row, hlc)
    requires forall s :: s in theirs ==> Readable(s) && s.key.kind == SPACES
    ensures var next := ApplyOp(Some(row), ChatOp(row, ours, theirs, target, hlc));
      && next.Some? && !next.value.deleted && next.value.key == row.key && Readable(next.value)
      && DeviceOf(next.value) == target && IdOf(next.value) == IdOf(row)
      && (var own := OwnSpace(row, ours);
          TextOf(next.value, "spaceId") ==
          if own.Some? && Twin(own.value, theirs).Some? then Some(IdOf(Twin(own.value, theirs).value))
          else TextOf(row, "spaceId"))
  {
    var op := ChatOp(row, ours, theirs, target, hlc);
    UpdateAt(row, op, "deviceId");
    UpdateAt(row, op, "id");
    UpdateAt(row, op, "spaceId");
    UpdateAt(row, op, "checkoutId");
  }

  // ── the theorem ──────────────────────────────────────────────────────────

  /** Where a chat's space stands after the merge. */
  lemma SpacesMatchAt(table: Table, chats: seq<Row>, spaces: seq<Row>, sessions: seq<Row>,
                      source: string, target: string, hlc: Clock, k: Key)
    requires Inputs(table, chats, spaces, sessions) && Mergeable(table, source, target, hlc)
    requires OwnedBy(table, k, source) && k.kind == CHATS
    ensures var after := After(table, chats, spaces, sessions, source, target, hlc);
      && OwnedBy(after, k, target) && IdOf(after[k]) == k.id
      && (HasText(after[k], "spaceId") ==> OwnedBy(after, Key(SPACES, after[k].fields["spaceId"].text), target))
  {
    var ours, theirs := OnDevice(spaces, source), OnDevice(spaces, target);
    OnDeviceFacts(spaces, source);
    OnDeviceFacts(spaces, target);
    AfterAt(table, chats, spaces, sessions, source, target, hlc, k);
    ChatAfter(table[k], ours, theirs, target, hlc);
    var after := After(table, chats, spaces, sessions, source, target, hlc);
    if HasText(after[k], "spaceId") {
      assert HasText(table[k], "spaceId");
      var s := Key(SPACES, table[k].fields["spaceId"].text);
      assert OwnedBy(table, s, source);
      assert table[s] in ours && TextOf(table[s], "id") == Some(s.id);
      var own := OwnSpace(table[k], ours).value;
      assert own.key == s && own == table[s];
      match Twin(own, theirs) {
        case Some(twin) =>
          assert OwnedBy(table, twin.key, target) && twin.key == Key(SPACES, IdOf(twin));
          AfterAt(table, chats, spaces, sessions, source, target, hlc, twin.key);
        case None =>
          AfterAt(table, chats, spaces, sessions, source, target, hlc, s);
          SpaceAfter(table[s], theirs, target, hlc);
      }
    }
  }

  // ── which space, and what becomes of each field ──────────────────────────

  function PathOf(space: Row): string
    requires Readable(space) && space.key.kind == SPACES
  {
    space.fields["path"].text
  }

  /** `s` is a live space of the device, at this path. */
  ghost predicate SpaceAt(table: Table, s: Key, device: string, path: string) {
    s.kind == SPACES && OwnedBy(table, s, device) && PathOf(table[s]) == path
  }

  ghost predicate HoldsPath(table: Table, device: string, path: string) {
    exists s :: SpaceAt(table, s, device, path)
  }

  /** Spaces are coalesced by path and by nothing else. */
  lemma {:induction false} TwinExactly(table: Table, spaces: seq<Row>, space: Row, target: string)
    requires Lists(table, SPACES, spaces) && AllKind(spaces, SPACES) && Readable(space) && space.key.kind == SPACES
    ensures var twin := Twin(space, OnDevice(spaces, target));
      && (twin.Some? <==> HoldsPath(table, target, PathOf(space)))
      && (twin.Some? ==> SpaceAt(table, twin.value.key, target, PathOf(space)) && table[twin.value.key] == twin.value)
  {
    var theirs := OnDevice(spaces, target);
    OnDeviceFacts(spaces, target);
    if HoldsPath(table, target, PathOf(space)) {
      var s :| SpaceAt(table, s, target, PathOf(space));
      assert table[s] in theirs && TextOf(table[s], "path") == Some(PathOf(space));
    }
    if Twin(space, theirs).Some? {
      var twin := Twin(space, theirs).value;
      assert twin in theirs;
      assert SpaceAt(table, twin.key, target, PathOf(space));
    }
  }

  ghost predicate Buried(table: Table, k: Key) {
    k in table && table[k].deleted
  }

  /** A space of the source goes exactly when the target has one at its path. Otherwise it is the
      target's, with its id and path and all else but what was probed on the old device. */
  ghost predicate SpaceRehomed(table: Table, after: Table, target: string, k: Key)
    requires Listed(table, k) && k.kind == SPACES
  {
    if HoldsPath(table, target, PathOf(table[k])) then Buried(after, k)
    else
      && OwnedBy(after, k, target) && PathOf(after[k]) == PathOf(table[k])
      && (forall f :: Get(after[k].fields, f)
            == if f == "deviceId" then Some(Str(target))
               else if f == "gitCheckedAt" || f == "checkoutId" then None
               else Get(table[k].fields, f))
  }

  /** A chat of the source is the target's, in a space at the same path as before, whose checkout it
      takes over; without a space only its device changes. */
  ghost predicate ChatRehomed(table: Table, after: Table, target: string, k: Key)
    requires k in table
  {
    && OwnedBy(after, k, target)
    && (forall f :: f !in {"deviceId", "spaceId", "checkoutId"} ==> Get(after[k].fields, f) == Get(table[k].fields, f))
    && (HasText(table[k], "spaceId") <==> HasText(after[k], "spaceId"))
    && (if HasText(table[k], "spaceId") then
          KeepsPath(table, after, target, k, Key(SPACES, table[k].fields["spaceId"].text),
                    Key(SPACES, after[k].fields["spaceId"].text))
        else Get(after[k].fields, "checkoutId") == Get(table[k].fields, "checkoutId"))
  }

  /** The chat `k` was in space `s` and is in space `t`. */
  ghost predicate KeepsPath(table: Table, after: Table, target: string, k: Key, s: Key, t: Key) {
    && Listed(table, s) && s.kind == SPACES && k in after
    && SpaceAt(after, t, target, PathOf(table[s]))
    && (HoldsPath(table, target, PathOf(table[s])) ==> RowAt(table, t) == RowAt(after, t))
    && (!HoldsPath(table, target, PathOf(table[s])) ==> t == s)
    && TextOf(after[k], "checkoutId") == TextOf(after[t], "checkoutId")
  }

  lemma SpaceRehomes(table: Table, chats: seq<Row>, spaces: seq<Row>, sessions: seq<Row>,
                     source: string, target: string, hlc: Clock, k: Key)
    requires Inputs(table, chats, spaces, sessions) && Mergeable(table, source, target, hlc)
    requires OwnedBy(table, k, source) && k.kind == SPACES
    ensures SpaceRehomed(table, After(table, chats, spaces, sessions, source, target, hlc), target, k)
  {
    OnDeviceFacts(spaces, target);
    AfterAt(table, chats, spaces, sessions, source, target, hlc, k);
    TwinExactly(table, spaces, table[k], target);
    SpaceAfter(table[k], OnDevice(spaces, target), target, hlc);
    if Twin(table[k], OnDevice(spaces, target)).None? {
      SpaceFields(table[k], OnDevice(spaces, target), target, hlc);
    }
  }

  lemma SpaceFields(row: Row, theirs: seq<Row>, target: string, hlc: Clock)
    requires Readable(row) && row.key.kind == SPACES && !row.deleted && Beats(row, hlc) && Twin(row, theirs).None?
    ensures var next := ApplyOp(Some(row), SpaceOp(row, theirs, target, hlc));
      && next.Some?
      && (forall f :: Get(next.value.fields, f)
            == if f == "deviceId" then Some(Str(target))
               else if f == "gitCheckedAt" || f == "checkoutId" then None
               else Get(row.fields, f))
  {
    var op := SpaceOp(row, theirs, target, hlc);
    forall f
      ensures Get(MergeFields(row, op).fields, f)
              == if f == "deviceId" then Some(Str(target))
                 else if f == "gitCheckedAt" || f == "checkoutId" then None
                 else Get(row.fields, f)
    {
      UpdateAt(row, op, f);
    }
  }

  lemma ChatFields(chat: Row, ours: seq<Row>, theirs: seq<Row>, target: string, hlc: Clock, f: string)
    requires Readable(chat) && chat.key.kind == CHATS && !chat.deleted && Beats(chat, hlc)
    requires forall s :: s in theirs ==> Readable(s) && s.key.kind == SPACES
    ensures var next := ApplyOp(Some(chat), ChatOp(chat, ours, theirs, target, hlc));
      var own := OwnSpace(chat, ours);
      && next.Some?
      && (f !in {"deviceId", "spaceId", "checkoutId"} ==> Get(next.value.fields, f) == Get(chat.fields, f))
      && (f == "checkoutId" && own.None? ==> Get(next.value.fields, f) == Get(chat.fields, f))
      && (f == "checkoutId" && own.Some? ==>
            TextOf(next.value, f) == match Twin(own.value, theirs)
                                     case Some(twin) => TextOf(twin, f)
                                     case None => None)
  {
    UpdateAt(chat, ChatOp(chat, ours, theirs, target, hlc), f);
  }

  lemma ChatRehomes(table: Table, chats: seq<Row>, spaces: seq<Row>, sessions: seq<Row>,
                    source: string, target: string, hlc: Clock, k: Key)
    requires Inputs(table, chats, spaces, sessions) && Mergeable(table, source, target, hlc)
    requires OwnedBy(table, k, source) && k.kind == CHATS
    ensures ChatRehomed(table, After(table, chats, spaces, sessions, source, target, hlc), target, k)
  {
    var ours, theirs := OnDevice(spaces, source), OnDevice(spaces, target);
    OnDeviceFacts(spaces, target);
    AfterAt(table, chats, spaces, sessions, source, target, hlc, k);
    ChatAfter(table[k], ours, theirs, target, hlc);
    SpacesMatchAt(table, chats, spaces, sessions, source, target, hlc, k);
    var after := After(table, chats, spaces, sessions, source, target, hlc);
    forall f
      ensures f !in {"deviceId", "spaceId", "checkoutId"} ==> Get(after[k].fields, f) == Get(table[k].fields, f)
    {
      ChatFields(table[k], ours, theirs, target, hlc, f);
    }
    if HasText(table[k], "spaceId") {
      ChatKeepsPath(table, chats, spaces, sessions, source, target, hlc, k);
    } else {
      ChatFields(table[k], ours, theirs, target, hlc, "checkoutId");
    }
  }

  lemma ChatKeepsPath(table: Table, chats: seq<Row>, spaces: seq<Row>, sessions: seq<Row>,
                      source: string, target: string, hlc: Clock, k: Key)
    requires Inputs(table, chats, spaces, sessions) && Mergeable(table, source, target, hlc)
    requires OwnedBy(table, k, source) && k.kind == CHATS && HasText(table[k], "spaceId")
    ensures var after := After(table, chats, spaces, sessions, source, target, hlc);
      && k in after && HasText(after[k], "spaceId")
      && KeepsPath(table, after, target, k, Key(SPACES, table[k].fields["spaceId"].text),
                   Key(SPACES, after[k].fields["spaceId"].text))
  {
    var s := Key(SPACES, table[k].fields["spaceId"].text);
    ChatNames(table, chats, spaces, sessions, source, target, hlc, k);
    TwinExactly(table, spaces, table[s], target);
    var after := After(table, chats, spaces, sessions, source, target, hlc);
    match Twin(table[s], OnDevice(spaces, target)) {
      case Some(twin) =>
        TwinStays(table, chats, spaces, sessions, source, target, hlc, twin);
        PathOfTwin(table, after, target, k, s, twin);
      case None =>
        SpaceRehomes(table, chats, spaces, sessions, source, target, hlc, s);
        PathOfOwn(table, after, target, k, s);
    }
  }

  lemma PathOfTwin(table: Table, after: Table, target: string, k: Key, s: Key, twin: Row)
    requires Listed(table, s) && s.kind == SPACES && k in after
    requires SpaceAt(table, twin.key, target, PathOf(table[s])) && table[twin.key] == twin
    requires RowAt(after, twin.key) == Some(twin) && HoldsPath(table, target, PathOf(table[s]))
    requires TextOf(after[k], "checkoutId") == TextOf(twin, "checkoutId")
    ensures KeepsPath(table, after, target, k, s, twin.key)
  {
  }

  lemma PathOfOwn(table: Table, after: Table, target: string, k: Key, s: Key)
    requires Listed(table, s) && s.kind == SPACES && k in after && SpaceRehomed(table, after, target, s)
    requires !HoldsPath(table, target, PathOf(table[s])) && TextOf(after[k], "checkoutId").None?
    ensures KeepsPath(table, after, target, k, s, s)
  {
    assert Get(after[s].fields, "checkoutId").None?;
  }

  /** What the moved chat says of its space. */
  lemma {:induction false} ChatNames(table: Table, chats: seq<Row>, spaces: seq<Row>, sessions: seq<Row>,
                                     source: string, target: string, hlc: Clock, k: Key)
    requires Inputs(table, chats, spaces, sessions) && Mergeable(table, source, target, hlc)
    requires OwnedBy(table, k, source) && k.kind == CHATS && HasText(table[k], "spaceId")
    ensures AllKind(OnDevice(spaces, target), SPACES)
    ensures var s := Key(SPACES, table[k].fields["spaceId"].text);
      && OwnedBy(table, s, source)
      && (var twin, after := Twin(table[s], OnDevice(spaces, target)), After(table, chats, spaces, sessions, source, target, hlc);
          && k in after
          && TextOf(after[k], "spaceId") == Some(if twin.Some? then IdOf(twin.value) else s.id)
          && TextOf(after[k], "checkoutId") == if twin.Some? then TextOf(twin.value, "checkoutId") else None)
  {
    OnDeviceFacts(spaces, target);
    OwnSpaceFound(table, chats, spaces, sessions, source, k);
    AfterAt(table, chats, spaces, sessions, source, target, hlc, k);
    ChatAfter(table[k], OnDevice(spaces, source), OnDevice(spaces, target), target, hlc);
    ChatFields(table[k], OnDevice(spaces, source), OnDevice(spaces, target), target, hlc, "checkoutId");
  }

  /** No row of the source device is left, and its device row is a tombstone. */
  lemma SourceGone(table: Table, chats: seq<Row>, spaces: seq<Row>, sessions: seq<Row>,
                   source: string, target: string, hlc: Clock, k: Key)
    requires Inputs(table, chats, spaces, sessions) && Mergeable(table, source, target, hlc)
    ensures var after := After(table, chats, spaces, sessions, source, target, hlc);
      && !OwnedBy(after, k, source)
      && (k == Key(DEVICES, source) ==> k in after && after[k].deleted)
  {
    OnDeviceFacts(spaces, target);
    AfterAt(table, chats, spaces, sessions, source, target, hlc, k);
    var theirs := OnDevice(spaces, target);
    if OwnedBy(table, k, source) {
      if k.kind == CHATS {
        ChatAfter(table[k], OnDevice(spaces, source), theirs, target, hlc);
      } else if k.kind == SPACES {
        SpaceAfter(table[k], theirs, target, hlc);
      } else {
        SessionAfter(table[k], hlc);
      }
    } else if k == Key(DEVICES, source) {
      BeatsDeletes(table[k], RowOp(k, Delete, None, hlc, None));
    }
  }

  /** Every chat's space is still a live space on the chat's own device, the chats are the same chats,
      each in a space at the path it was at before, spaces are coalesced exactly where the target has
      the path, nothing of the source device remains, and every other row is untouched. */
  ghost predicate Rehomed(table: Table, after: Table, source: string, target: string) {
    && SpacesMatch(after)
    && (forall k: Key :: k.kind == CHATS ==> (Listed(after, k) <==> Listed(table, k)))
    && (forall k :: OwnedBy(table, k, source) && k.kind == CHATS ==> ChatRehomed(table, after, target, k))
    && (forall k :: OwnedBy(table, k, source) && k.kind == SPACES ==> SpaceRehomed(table, after, target, k))
    && (forall k :: OwnedBy(table, k, source) && k.kind == SESSIONS ==> Buried(after, k))
    && (forall k :: !OwnedBy(after, k, source))
    && Visible(RowAt(after, Key(DEVICES, source))).None?
    && (forall k :: !Touched(table, k, source) ==> RowAt(after, k) == RowAt(table, k))
  }

  lemma MergeKeepsIntegrity(table: Table, chats: seq<Row>, spaces: seq<Row>, sessions: seq<Row>,
                            source: string, target: string, hlc: Clock)
    requires Inputs(table, chats, spaces, sessions) && Mergeable(table, source, target, hlc)
    ensures Rehomed(table, After(table, chats, spaces, sessions, source, target, hlc), source, target)
  {
    var after := After(table, chats, spaces, sessions, source, target, hlc);
    OnDeviceFacts(spaces, target);
    forall k: Key
      ensures k.kind == CHATS ==> (Listed(after, k) <==> Listed(table, k))
      ensures OwnedBy(table, k, source) && k.kind == CHATS ==> ChatRehomed(table, after, target, k)
      ensures OwnedBy(table, k, source) && k.kind == SPACES ==> SpaceRehomed(table, after, target, k)
      ensures OwnedBy(table, k, source) && k.kind == SESSIONS ==> Buried(after, k)
      ensures !OwnedBy(after, k, source)
      ensures !Touched(table, k, source) ==> RowAt(after, k) == RowAt(table, k)
      ensures Listed(after, k) && k.kind == CHATS && HasText(after[k], "spaceId") ==>
        OwnedBy(after, Key(SPACES, after[k].fields["spaceId"].text), DeviceOf(after[k]))
    {
      AfterAt(table, chats, spaces, sessions, source, target, hlc, k);
      SourceGone(table, chats, spaces, sessions, source, target, hlc, k);
      if OwnedBy(table, k, source) && k.kind == SPACES {
        SpaceRehomes(table, chats, spaces, sessions, source, target, hlc, k);
      } else if OwnedBy(table, k, source) && k.kind == SESSIONS {
        SessionAfter(table[k], hlc);
      } else if k.kind == CHATS {
        if OwnedBy(table, k, source) {
          SpacesMatchAt(table, chats, spaces, sessions, source, target, hlc, k);
          ChatRehomes(table, chats, spaces, sessions, source, target, hlc, k);
        } else if Listed(table, k) && HasText(table[k], "spaceId") {
          AfterAt(table, chats, spaces, sessions, source, target, hlc, Key(SPACES, table[k].fields["spaceId"].text));
        }
      }
    }
    SourceGone(table, chats, spaces, sessions, source, target, hlc, Key(DEVICES, source));
  }

  /** The one clock that has to be older than the batch for the row to leave the source device: that
      of its `deviceId` when it is re-homed, the newest one on the row when it is tombstoned. */
  ghost function Deciding(row: Row, theirs: seq<Row>): Option<Clock>
    requires Readable(row) && row.key.kind in {CHATS, SPACES, SESSIONS}
  {
    if row.key.kind == CHATS || (row.key.kind == SPACES && Twin(row, theirs).None?) then Get(row.clocks, "deviceId")
    else MaxClock(row)
  }

  lemma UpdateDecides(row: Row, op: RowOp, source: string, target: string)
    requires Readable(row) && row.key.kind in {CHATS, SPACES} && !row.deleted && DeviceOf(row) == source != target
    requires op.op.Update? && op.clocks.None? && "id" !in op.Writes() && "path" !in op.Writes()
    requires "deviceId" in op.Writes() && op.Writes()["deviceId"] == Str(target)
    requires forall f :: f in op.Writes() && f in {"spaceId", "checkoutId"} ==> op.Writes()[f] == Null || op.Writes()[f].Str?
    ensures var next := ApplyOp(Some(row), op);
      && next.Some? && !next.value.deleted && next.value.key == row.key && Readable(next.value)
      && DeviceOf(next.value) == if Newer(op.hlc, Get(row.clocks, "deviceId")) then target else source
  {
    MergeAt(row, op, "deviceId");
    MergeAt(row, op, "id");
    MergeAt(row, op, "path");
    MergeAt(row, op, "spaceId");
    MergeAt(row, op, "checkoutId");
  }

  ghost predicate StillOn(row: Option<Row>, key: Key, source: string) {
    row.Some? && !row.value.deleted && row.value.key == key && Readable(row.value) && DeviceOf(row.value) == source
  }

  lemma DeleteDecides(row: Row, op: RowOp, source: string)
    requires Readable(row) && !row.deleted && DeviceOf(row) == source && op.op.Delete?
    ensures StillOn(ApplyOp(Some(row), op), row.key, source) <==> !Newer(op.hlc, MaxClock(row))
  {
  }

  lemma OpDecides(row: Row, ours: seq<Row>, theirs: seq<Row>, source: string, target: string, hlc: Clock)
    requires Readable(row) && row.key.kind in {CHATS, SPACES, SESSIONS} && !row.deleted
    requires DeviceOf(row) == source != target
    requires forall s :: s in theirs ==> Readable(s) && s.key.kind == SPACES
    ensures StillOn(ApplyOp(Some(row), OwnedOp(row, ours, theirs, target, hlc)), row.key, source) <==>
      !Newer(hlc, Deciding(row, theirs))
  {
    var op := OwnedOp(row, ours, theirs, target, hlc);
    if op.op.Update? {
      UpdateDecides(row, op, source, target);
    } else {
      DeleteDecides(row, op, source);
    }
  }

  /** The clock source never looks at remote clocks, so the batch can lose. Row by row, exactly when:
      a row of the source device leaves it if and only if the batch beats its deciding clock. */
  lemma {:induction false} LeavesExactly(table: Table, chats: seq<Row>, spaces: seq<Row>, sessions: seq<Row>,
                                         source: string, target: string, hlc: Clock, k: Key)
    requires Inputs(table, chats, spaces, sessions) && SelfNamed(table) && source != target
    requires OwnedBy(table, k, source)
    ensures AllKind(OnDevice(spaces, target), SPACES)
    ensures OwnedBy(After(table, chats, spaces, sessions, source, target, hlc), k, source) <==>
      !Newer(hlc, Deciding(table[k], OnDevice(spaces, target)))
  {
    OnDeviceFacts(spaces, target);
    AfterAt(table, chats, spaces, sessions, source, target, hlc, k);
    OpDecides(table[k], OnDevice(spaces, source), OnDevice(spaces, target), source, target, hlc);
  }

  /** And the source's own device row goes if and only if the batch beats its newest clock. */
  lemma DeviceRowExactly(table: Table, chats: seq<Row>, spaces: seq<Row>, sessions: seq<Row>,
                         source: string, target: string, hlc: Clock)
    requires Inputs(table, chats, spaces, sessions) && SelfNamed(table)
    requires Key(DEVICES, source) in table && !table[Key(DEVICES, source)].deleted
    ensures var after := After(table, chats, spaces, sessions, source, target, hlc);
      Visible(RowAt(after, Key(DEVICES, source))).None? <==> Newer(hlc, MaxClock(table[Key(DEVICES, source)]))
  {
    OnDeviceFacts(spaces, target);
    AfterAt(table, chats, spaces, sessions, source, target, hlc, Key(DEVICES, source));
  }

  // ── exactly when chats and spaces stay together ──────────────────────────

  /** A chat, if it is listed and names a space, names a live space on its own device. */
  ghost predicate ChatFits(table: Table, k: Key) {
    Listed(table, k) && k.kind == CHATS && HasText(table[k], "spaceId") ==>
      OwnedBy(table, Key(SPACES, table[k].fields["spaceId"].text), DeviceOf(table[k]))
  }

  /** The batch beats the clocks that matter on both sides alike. With a twin the chat must get both its
      device and its space, or neither it nor its space may move; without one both move or neither. */
  ghost predicate MoveTogether(chat: Row, space: Row, theirs: seq<Row>, hlc: Clock)
    requires Readable(space) && space.key.kind == SPACES
  {
    var moves, leaves := Newer(hlc, Get(chat.clocks, "deviceId")), Newer(hlc, Deciding(space, theirs));
    if Twin(space, theirs).None? then moves == leaves
    else if Newer(hlc, Get(chat.clocks, "spaceId")) then moves
    else !moves && !leaves
  }

  /** The chat's row after its op, whatever its clocks. */
  lemma ChatRowAfter(chat: Row, ours: seq<Row>, theirs: seq<Row>, source: string, target: string, hlc: Clock)
    requires Readable(chat) && chat.key.kind == CHATS && !chat.deleted && DeviceOf(chat) == source != target
    requires forall s :: s in theirs ==> Readable(s) && s.key.kind == SPACES
    ensures var next := ApplyOp(Some(chat), ChatOp(chat, ours, theirs, target, hlc));
      && next.Some? && !next.value.deleted && next.value.key == chat.key && Readable(next.value)
      && DeviceOf(next.value) == (if Newer(hlc, Get(chat.clocks, "deviceId")) then target else source)
      && (var own := OwnSpace(chat, ours);
          TextOf(next.value, "spaceId")
          == if own.Some? && Twin(own.value, theirs).Some? && Newer(hlc, Get(chat.clocks, "spaceId"))
             then Some(IdOf(Twin(own.value, theirs).value)) else TextOf(chat, "spaceId"))
  {
    var op := ChatOp(chat, ours, theirs, target, hlc);
    UpdateDecides(chat, op, source, target);
    MergeAt(chat, op, "spaceId");
  }

  /** The space's row after its op: still the source's, the target's, or a tombstone. */
  lemma SpaceRowAfter(space: Row, theirs: seq<Row>, source: string, target: string, hlc: Clock)
    requires Readable(space) && space.key.kind == SPACES && !space.deleted && DeviceOf(space) == source != target
    ensures var next, leaves := ApplyOp(Some(space), SpaceOp(space, theirs, target, hlc)), Newer(hlc, Deciding(space, theirs));
      && (StillOn(next, space.key, source) <==> !leaves)
      && (StillOn(next, space.key, target) <==> leaves && Twin(space, theirs).None?)
  {
    var op := SpaceOp(space, theirs, target, hlc);
    if op.op.Update? {
      UpdateDecides(space, op, source, target);
    } else {
      DeleteDecides(space, op, source);
    }
  }

  lemma OwnedIsStillOn(table: Table, k: Key, device: string)
    requires k.kind in {CHATS, SPACES, SESSIONS}
    ensures OwnedBy(table, k, device) <==> StillOn(RowAt(table, k), k, device)
  {
  }

  /** The space a chat of the source names, found again among the source's spaces. */
  lemma {:induction false} OwnSpaceFound(table: Table, chats: seq<Row>, spaces: seq<Row>, sessions: seq<Row>,
                                         source: string, k: Key)
    requires Inputs(table, chats, spaces, sessions) && SelfNamed(table) && SpacesMatch(table)
    requires OwnedBy(table, k, source) && k.kind == CHATS && HasText(table[k], "spaceId")
    ensures var s := Key(SPACES, table[k].fields["spaceId"].text);
      OwnedBy(table, s, source) && OwnSpace(table[k], OnDevice(spaces, source)) == Some(table[s])
  {
    var s, ours := Key(SPACES, table[k].fields["spaceId"].text), OnDevice(spaces, source);
    OnDeviceFacts(spaces, source);
    assert OwnedBy(table, s, source);
    assert table[s] in ours && TextOf(table[s], "id") == Some(s.id);
    var own := OwnSpace(table[k], ours).value;
    assert own.key == s;
  }

  /** A chat of the source still names a live space on its own device if and only if the two move together. */
  lemma {:induction false} ChatFitsExactly(table: Table, chats: seq<Row>, spaces: seq<Row>, sessions: seq<Row>,
                                           source: string, target: string, hlc: Clock, k: Key)
    requires Inputs(table, chats, spaces, sessions) && SelfNamed(table) && SpacesMatch(table) && source != target
    requires OwnedBy(table, k, source) && k.kind == CHATS && HasText(table[k], "spaceId")
    ensures var s := Key(SPACES, table[k].fields["spaceId"].text);
      && OwnedBy(table, s, source)
      && (ChatFits(After(table, chats, spaces, sessions, source, target, hlc), k) <==>
          MoveTogether(table[k], table[s], OnDevice(spaces, target), hlc))
  {
    var s, ours, theirs := Key(SPACES, table[k].fields["spaceId"].text), OnDevice(spaces, source), OnDevice(spaces, target);
    var after := After(table, chats, spaces, sessions, source, target, hlc);
    OnDeviceFacts(spaces, target);
    OwnSpaceFound(table, chats, spaces, sessions, source, k);
    AfterAt(table, chats, spaces, sessions, source, target, hlc, k);
    AfterAt(table, chats, spaces, sessions, source, target, hlc, s);
    ChatRowAfter(table[k], ours, theirs, source, target, hlc);
    SpaceRowAfter(table[s], theirs, source, target, hlc);
    OwnedIsStillOn(after, s, source);
    OwnedIsStillOn(after, s, target);
    match Twin(table[s], theirs) {
      case Some(twin) => TwinStays(table, chats, spaces, sessions, source, target, hlc, twin);
      case None =>
    }
  }

  /** A space of the target is what it was, and is filed under its own id. */
  lemma {:induction false} TwinStays(table: Table, chats: seq<Row>, spaces: seq<Row>, sessions: seq<Row>,
                                     source: string, target: string, hlc: Clock, twin: Row)
    requires Inputs(table, chats, spaces, sessions) && SelfNamed(table) && source != target
    requires twin in OnDevice(spaces, target)
    ensures Readable(twin) && twin.key.kind == SPACES && twin.key == Key(SPACES, IdOf(twin))
    ensures OwnedBy(After(table, chats, spaces, sessions, source, target, hlc), twin.key, target)
    ensures RowAt(table, twin.key) == RowAt(After(table, chats, spaces, sessions, source, target, hlc), twin.key) == Some(twin)
  {
    OnDeviceFacts(spaces, target);
    assert OwnedBy(table, twin.key, target);
    AfterAt(table, chats, spaces, sessions, source, target, hlc, twin.key);
  }

  /** Chats of other devices, and chats without a space, fit as before. */
  lemma OtherChatsFit(table: Table, chats: seq<Row>, spaces: seq<Row>, sessions: seq<Row>,
                      source: string, target: string, hlc: Clock, k: Key)
    requires Inputs(table, chats, spaces, sessions) && SelfNamed(table) && SpacesMatch(table) && source != target
    requires k.kind == CHATS && !(OwnedBy(table, k, source) && HasText(table[k], "spaceId"))
    ensures ChatFits(After(table, chats, spaces, sessions, source, target, hlc), k)
  {
    OnDeviceFacts(spaces, target);
    AfterAt(table, chats, spaces, sessions, source, target, hlc, k);
    if OwnedBy(table, k, source) {
      ChatRowAfter(table[k], OnDevice(spaces, source), OnDevice(spaces, target), source, target, hlc);
      assert OwnSpace(table[k], OnDevice(spaces, source)).None?;
    } else if Listed(table, k) && HasText(table[k], "spaceId") {
      AfterAt(table, chats, spaces, sessions, source, target, hlc, Key(SPACES, table[k].fields["spaceId"].text));
    }
  }

  /** Whatever the clocks, referential integrity survives the merge if and only if every chat of the source
      that names a space moves together with it. */
  lemma {:induction false} IntegrityExactly(table: Table, chats: seq<Row>, spaces: seq<Row>, sessions: seq<Row>,
                                            source: string, target: string, hlc: Clock)
    requires Inputs(table, chats, spaces, sessions) && SelfNamed(table) && SpacesMatch(table) && source != target
    ensures SpacesMatch(After(table, chats, spaces, sessions, source, target, hlc)) <==>
      forall k :: OwnedBy(table, k, source) && k.kind == CHATS && HasText(table[k], "spaceId") ==>
        MoveTogether(table[k], table[Key(SPACES, table[k].fields["spaceId"].text)], OnDevice(spaces, target), hlc)
  {
    var after := After(table, chats, spaces, sessions, source, target, hlc);
    forall k: Key | k.kind == CHATS
      ensures OwnedBy(table, k, source) && HasText(table[k], "spaceId") ==>
        (ChatFits(after, k) <==>
         MoveTogether(table[k], table[Key(SPACES, table[k].fields["spaceId"].text)], OnDevice(spaces, target), hlc))
      ensures !(OwnedBy(table, k, source) && HasText(table[k], "spaceId")) ==> ChatFits(after, k)
    {
      if OwnedBy(table, k, source) && HasText(table[k], "spaceId") {
        ChatFitsExactly(table, chats, spaces, sessions, source, target, hlc, k);
      } else {
        OtherChatsFit(table, chats, spaces, sessions, source, target, hlc, k);
      }
    }
    MatchIsFit(after);
  }

  lemma MatchIsFit(table: Table)
    ensures SpacesMatch(table) <==> forall k: Key :: k.kind == CHATS ==> ChatFits(table, k)
  {
  }

  ghost function Plain(kind: string, id: string, fields: map<string, Value>, clocks: map<string, Clock>): Row {
    Row(Key(kind, id), 0, false, None, fields, clocks)
  }

  ghost function PathSpace(id: string, device: string): Row {
    Plain(SPACES, id, map["id" := Str(id), "deviceId" := Str(device), "path" := Str("/p")],
          map["id" := "1", "deviceId" := "1", "path" := "1"])
  }

  /** A chat whose `spaceId` was written at clock "9". */
  ghost function LateChat(): Row {
    Plain(CHATS, "c", map["id" := Str("c"), "deviceId" := Str("s"), "spaceId" := Str("a")],
          map["id" := "1", "deviceId" := "1", "spaceId" := "9"])
  }

  ghost function LateTable(): Table {
    map[Key(CHATS, "c") := LateChat(), Key(SPACES, "a") := PathSpace("a", "s"), Key(SPACES, "b") := PathSpace("b", "t")]
  }

  /** The failing family: the batch beats a chat's device and its space, which has a twin, but not the space's
      name on the chat. Both leave the source, and integrity is lost. */
  lemma {:induction false} Stranded(table: Table, chats: seq<Row>, spaces: seq<Row>, sessions: seq<Row>,
                                    source: string, target: string, hlc: Clock, k: Key, s: Key)
    requires Inputs(table, chats, spaces, sessions) && SelfNamed(table) && SpacesMatch(table) && source != target
    requires OwnedBy(table, k, source) && k.kind == CHATS && TextOf(table[k], "spaceId") == Some(s.id)
    requires s.kind == SPACES && OwnedBy(table, s, source) && Twin(table[s], OnDevice(spaces, target)).Some?
    requires Newer(hlc, Get(table[k].clocks, "deviceId")) && !Newer(hlc, Get(table[k].clocks, "spaceId"))
    requires Newer(hlc, MaxClock(table[s]))
    ensures var after := After(table, chats, spaces, sessions, source, target, hlc);
      !OwnedBy(after, k, source) && !OwnedBy(after, s, source) && !SpacesMatch(after)
  {
    OnDeviceFacts(spaces, target);
    LeavesExactly(table, chats, spaces, sessions, source, target, hlc, k);
    LeavesExactly(table, chats, spaces, sessions, source, target, hlc, s);
    ChatFitsExactly(table, chats, spaces, sessions, source, target, hlc, k);
    MatchIsFit(After(table, chats, spaces, sessions, source, target, hlc));
  }

  /** Merged at clock "5", this chat moves to the target and still names its old space, now a tombstone. */
  lemma LateChatStrands()
    ensures Inputs(LateTable(), [LateChat()], [PathSpace("a", "s"), PathSpace("b", "t")], [])
    ensures SpacesMatch(LateTable())
    ensures !SpacesMatch(After(LateTable(), [LateChat()], [PathSpace("a", "s"), PathSpace("b", "t")], [], "s", "t", "5"))
  {
    LateLists();
    LateMatch();
    LateClocks();
    Stranded(LateTable(), [LateChat()], [PathSpace("a", "s"), PathSpace("b", "t")], [], "s", "t", "5",
             Key(CHATS, "c"), Key(SPACES, "a"));
  }

  lemma LateListed(k: Key)
    ensures Listed(LateTable(), k) <==> k in LateTable()
    ensures k in LateTable() <==> k == Key(CHATS, "c") || k == Key(SPACES, "a") || k == Key(SPACES, "b")
  {
    assert Readable(LateChat()) && Readable(PathSpace("a", "s")) && Readable(PathSpace("b", "t"));
  }

  lemma LateLists()
    ensures Inputs(LateTable(), [LateChat()], [PathSpace("a", "s"), PathSpace("b", "t")], [])
  {
    forall k ensures Listed(LateTable(), k) <==> k == Key(CHATS, "c") || k == Key(SPACES, "a") || k == Key(SPACES, "b") {
      LateListed(k);
    }
    assert KeysDistinct([PathSpace("a", "s"), PathSpace("b", "t")]);
  }

  lemma LateMatch()
    ensures SelfNamed(LateTable()) && SpacesMatch(LateTable())
    ensures OwnedBy(LateTable(), Key(CHATS, "c"), "s") && OwnedBy(LateTable(), Key(SPACES, "a"), "s")
  {
    forall k ensures Listed(LateTable(), k) <==> k == Key(CHATS, "c") || k == Key(SPACES, "a") || k == Key(SPACES, "b") {
      LateListed(k);
    }
  }

  lemma LateClocks()
    ensures forall r :: r in [PathSpace("a", "s"), PathSpace("b", "t")] ==> Readable(r)
    ensures Twin(PathSpace("a", "s"), OnDevice([PathSpace("a", "s"), PathSpace("b", "t")], "t")).Some?
    ensures Newer("5", MaxClock(PathSpace("a", "s")))
    ensures Newer("5", Some("1")) && !Newer("5", Some("9"))
  {
    var a, b := PathSpace("a", "s"), PathSpace("b", "t");
    assert Readable(a) && Readable(b);
    OnDeviceFacts([a, b], "t");
    assert b in [a, b] && b in OnDevice([a, b], "t") && TextOf(b, "path") == TextOf(a, "path");
    assert Less("1", "5") && !Less("9", "5");
    assert forall c :: c in AllClocks(a) ==> c == "1";
    assert a.clocks["id"] in AllClocks(a);
    NewestUnique(Some("1"), AllClocks(a));
  }

  /** Two devices and one chat of the first, whose `deviceId` was written at clock "9". */
  ghost function AheadTable(): Table {
    map[Key(DEVICES, "s") := Row(Key(DEVICES, "s"), 0, false, None, map[], map[]),
        Key(DEVICES, "t") := Row(Key(DEVICES, "t"), 0, false, None, map[], map[]),
        Key(CHATS, "c") := AheadChat()]
  }

  ghost function AheadChat(): Row {
    Row(Key(CHATS, "c"), 0, false, None, map["id" := Str("c"), "deviceId" := Str("s")],
        map["id" := "1", "deviceId" := "9"])
  }

  /** Merged at clock "5", the chat stays on the source device, which is a tombstone. */
  lemma AheadChatStays()
    ensures Inputs(AheadTable(), [AheadChat()], [], []) && SpacesMatch(AheadTable())
    ensures var after := After(AheadTable(), [AheadChat()], [], [], "s", "t", "5");
      && OwnedBy(after, Key(CHATS, "c"), "s")
      && Key(DEVICES, "s") in after && after[Key(DEVICES, "s")].deleted
  {
    var table, chat, c, s := AheadTable(), AheadChat(), Key(CHATS, "c"), Key(DEVICES, "s");
    AheadLists();
    LeavesExactly(table, [chat], [], [], "s", "t", "5", c);
    AfterAt(table, [chat], [], [], "s", "t", "5", s);
    BeatsDeletes(table[s], RowOp(s, Delete, None, "5", None));
  }

  lemma AheadLists()
    ensures Inputs(AheadTable(), [AheadChat()], [], []) && SelfNamed(AheadTable()) && SpacesMatch(AheadTable())
    ensures OwnedBy(AheadTable(), Key(CHATS, "c"), "s") && AllKind(OnDevice([], "t"), SPACES)
  {
    var table, chat := AheadTable(), AheadChat();
    assert Readable(chat);
    assert forall k :: Listed(table, k) ==> k == Key(CHATS, "c");
  }

  // ── the operation on a replica ───────────────────────────────────────────

  /** Everything the replica shows, tombstones included. */
  ghost function Shown(replica: Replica): Table
    reads replica
  {
    Replay(replica.rows, Flatten(replica.pending))
  }

  lemma {:induction false} ReplayConcat(rows: Table, a: seq<RowOp>, b: seq<RowOp>)
    ensures Replay(rows, a + b) == Replay(Replay(rows, a), b)
  {
    if b == [] {
      assert a + b == a;
    } else {
      assert (a + b)[..|a + b| - 1] == a + b[..|b| - 1];
      ReplayConcat(rows, a, b[..|b| - 1]);
    }
  }

  lemma {:induction false} ReplayKeys(rows: Table, ops: seq<RowOp>)
    requires forall k :: k in rows ==> rows[k].key == k
    ensures forall k :: k in Replay(rows, ops) ==> Replay(rows, ops)[k].key == k
    ensures forall k :: k in Replay(rows, ops) ==> k in rows || k in OpKeys(ops)
  {
    if ops != [] {
      ReplayKeys(rows, ops[..|ops| - 1]);
    }
  }

  function OpKeys(ops: seq<RowOp>): set<Key> {
    if ops == [] then {} else OpKeys(ops[..|ops| - 1]) + {ops[|ops| - 1].key}
  }

  method ReadKind(replica: Replica, kind: string) returns (out: seq<Row>)
    requires replica.Valid() && kind in {CHATS, SPACES, SESSIONS}
    ensures Lists(Shown(replica), kind, out) && AllKind(out, kind)
  {
    ghost var table := Shown(replica);
    ReplayKeys(replica.rows, Flatten(replica.pending));
    var keys := replica.rows.Keys + OpKeys(Flatten(replica.pending));
    out := [];
    var rest := keys;
    while rest != {}
      invariant rest <= keys
      invariant forall r :: r in out <==>
        r.key.kind == kind && r.key in keys && r.key !in rest && Listed(table, r.key) && table[r.key] == r
      invariant KeysDistinct(out)
      decreases rest
    {
      var k :| k in rest;
      if k.kind == kind {
        var row := replica.OverlayRow(k);
        ReplayAt(replica.rows, Flatten(replica.pending), k);
        if row.Some? && Readable(row.value) {
          assert forall i :: 0 <= i < |out| ==> out[i] in out;
          out := out + [row.value];
        }
      }
      rest := rest - {k};
    }
  }

  method MergeDevice(replica: Replica, source: string, target: string, wall: nat -> int)
    returns (merged: bool, ghost hlc: Clock)
    requires replica.Valid()
    modifies replica, replica.hlc
    ensures replica.Valid() && replica.rows == old(replica.rows)
    ensures merged <==>
      (source != target
       && Visible(RowAt(old(Shown(replica)), Key(DEVICES, source))).Some?
       && Visible(RowAt(old(Shown(replica)), Key(DEVICES, target))).Some?)
    ensures !merged ==> replica.pending == old(replica.pending)
    ensures merged ==> hlc == EncodeHlc(Tick(old(replica.Clock()), wall(0)).lastMs,
                                        Tick(old(replica.Clock()), wall(0)).counter, replica.device)
    ensures merged && Mergeable(old(Shown(replica)), source, target, hlc) ==>
      Rehomed(old(Shown(replica)), Shown(replica), source, target)
  {
    hlc := "";
    var from := ShownRow(replica, Key(DEVICES, source));
    var to := ShownRow(replica, Key(DEVICES, target));
    if source == target || from.None? || to.None? {
      return false, hlc;
    }
    hlc := RestampAll(replica, source, target, wall);
    merged := true;
  }

  /** The body of the merge once both devices are known. */
  method RestampAll(replica: Replica, source: string, target: string, wall: nat -> int) returns (stamp: Clock)
    requires replica.Valid()
    modifies replica.hlc, replica`pending
    ensures stamp == EncodeHlc(Tick(old(replica.Clock()), wall(0)).lastMs,
                               Tick(old(replica.Clock()), wall(0)).counter, replica.device)
    ensures Mergeable(old(Shown(replica)), source, target, stamp) ==>
      Rehomed(old(Shown(replica)), Shown(replica), source, target)
  {
    ghost var table := Shown(replica);
    var spaces := ReadKind(replica, SPACES);
    var chats := ReadKind(replica, CHATS);
    var sessions := ReadKind(replica, SESSIONS);
    stamp := StageMerge(replica, chats, spaces, sessions, source, target, wall);
    MergeIfAble(table, chats, spaces, sessions, source, target, stamp);
  }

  lemma MergeIfAble(table: Table, chats: seq<Row>, spaces: seq<Row>, sessions: seq<Row>,
                    source: string, target: string, hlc: Clock)
    requires Inputs(table, chats, spaces, sessions)
    ensures Mergeable(table, source, target, hlc) ==>
      Rehomed(table, After(table, chats, spaces, sessions, source, target, hlc), source, target)
  {
    if Mergeable(table, source, target, hlc) {
      MergeKeepsIntegrity(table, chats, spaces, sessions, source, target, hlc);
    }
  }

  method StageMerge(replica: Replica, chats: seq<Row>, spaces: seq<Row>, sessions: seq<Row>,
                    source: string, target: string, wall: nat -> int) returns (stamp: Clock)
    requires replica.Valid() && AllKind(chats, CHATS) && AllKind(spaces, SPACES) && AllKind(sessions, SESSIONS)
    modifies replica.hlc, replica`pending
    ensures stamp == EncodeHlc(Tick(old(replica.Clock()), wall(0)).lastMs,
                               Tick(old(replica.Clock()), wall(0)).counter, replica.device)
    ensures Shown(replica) == After(old(Shown(replica)), chats, spaces, sessions, source, target, stamp)
  {
    stamp := replica.NextHlc(wall(0));
    StageOps(replica, MergeBatch(chats, spaces, sessions, source, target, stamp), (k: nat) => wall(k + 1));
  }

  method ShownRow(replica: Replica, key: Key) returns (row: Option<Row>)
    requires replica.Valid()
    ensures row == Visible(RowAt(Shown(replica), key))
  {
    ReplayAt(replica.rows, Flatten(replica.pending), key);
    row := replica.OverlayRow(key);
  }

  /** Enqueueing ops shows them at once, on top of what was shown. */
  method StageOps(replica: Replica, ops: seq<RowOp>, wall: nat -> int)
    requires replica.Valid()
    modifies replica.hlc, replica`pending
    ensures Shown(replica) == Replay(old(Shown(replica)), ops)
  {
    ghost var was, clock := replica.pending, replica.Clock();
    replica.EnqueueOps(ops, wall);
    ghost var added := Chunk(ops, clock, replica.device, wall, 0);
    ChunkExact(ops, clock, replica.device, wall, 0);
    FlattenConcat(was, added);
    ReplayConcat(replica.rows, Flatten(was), ops);
  }
}
