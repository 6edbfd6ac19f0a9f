/**
 Reordering a list of distinct ids by a left-to-right pass of "take the id out and
 put it back right after its predecessor".

 `wanted` is the target order, `moved[i]` says whether the pass touches `wanted[i]`.
 The pass never fails, and it reaches `wanted` exactly when the ids it leaves alone
 already stand in the target order.
 */
module ListEdits {
  import opened Common

  type Id = string

  ghost predicate Distinct(s: seq<Id>) {
    forall i, j :: 0 <= i < j < |s| ==> s[i] != s[j]
  }

  /** The first position of `x` at or after `from`, or the length of `s` when there is none. */
  function Find(s: seq<Id>, x: Id, from: nat): (r: nat)
    requires from <= |s|
    ensures from <= r <= |s|
    ensures r < |s| ==> s[r] == x
    ensures forall j :: from <= j < r ==> s[j] != x
    decreases |s| - from
  {
    if from == |s| || s[from] == x then from else Find(s, x, from + 1)
  }

  /** The first position of `x`, or the length of `s` when it is absent. */
  function Pos(s: seq<Id>, x: Id): (r: nat)
    ensures r <= |s|
    ensures r < |s| ==> s[r] == x
    ensures r == |s| <==> x !in s
    ensures forall j :: 0 <= j < r ==> s[j] != x
  {
    Find(s, x, 0)
  }

  lemma PosOfIndex(s: seq<Id>, i: nat)
    requires Distinct(s) && i < |s|
    ensures Pos(s, s[i]) == i
  {
  }

  function Without(s: seq<Id>, x: Id): (r: seq<Id>) {
    if x in s then s[..Pos(s, x)] + s[Pos(s, x) + 1..] else s
  }

  function InsertAt(s: seq<Id>, k: nat, x: Id): seq<Id>
    requires k <= |s|
  {
    s[..k] + [x] + s[k..]
  }

  /** Insert `x` right after `after` (at the head for `None`); fails when the anchor is gone. */
  function Place(s: seq<Id>, after: Option<Id>, x: Id): Option<seq<Id>> {
    match after
    case None => Some(InsertAt(s, 0, x))
    case Some(a) => if a in s then Some(InsertAt(s, Pos(s, a) + 1, x)) else None
  }

  lemma WithoutDistinct(s: seq<Id>, x: Id)
    requires Distinct(s)
    ensures Distinct(Without(s, x))
    ensures x !in Without(s, x)
  {
    var r := Without(s, x);
    if x in s {
      var p := Pos(s, x);
      assert forall k :: 0 <= k < |r| ==> r[k] == if k < p then s[k] else s[k + 1];
    }
  }

  lemma WithoutAt(s: seq<Id>, x: Id, y: Id)
    requires Distinct(s) && y != x
    ensures y in Without(s, x) <==> y in s
    ensures y in s ==> Pos(Without(s, x), y) == if Pos(s, x) < Pos(s, y) then Pos(s, y) - 1 else Pos(s, y)
  {
    var r := Without(s, x);
    if x in s {
      WithoutDistinct(s, x);
      var p := Pos(s, x);
      assert forall k :: 0 <= k < |r| ==> r[k] == if k < p then s[k] else s[k + 1];
      if y in s {
        var k := if p < Pos(s, y) then Pos(s, y) - 1 else Pos(s, y);
        assert r[k] == y;
        PosOfIndex(r, k);
      }
    }
  }

  lemma InsertDistinct(s: seq<Id>, k: nat, x: Id)
    requires Distinct(s) && x !in s && k <= |s|
    ensures Distinct(InsertAt(s, k, x))
    ensures Pos(InsertAt(s, k, x), x) == k
  {
    var r := InsertAt(s, k, x);
    assert forall q :: 0 <= q < |r| ==> r[q] == if q < k then s[q] else if q == k then x else s[q - 1];
    PosOfIndex(r, k);
  }

  lemma InsertedAt(s: seq<Id>, k: nat, x: Id, y: Id)
    requires Distinct(s) && x !in s && k <= |s| && y != x
    ensures y in InsertAt(s, k, x) <==> y in s
    ensures y in s ==> Pos(InsertAt(s, k, x), y) == if k <= Pos(s, y) then Pos(s, y) + 1 else Pos(s, y)
  {
    var r := InsertAt(s, k, x);
    InsertDistinct(s, k, x);
    assert forall q :: 0 <= q < |r| ==> r[q] == if q < k then s[q] else if q == k then x else s[q - 1];
    if y in s {
      var q := if k <= Pos(s, y) then Pos(s, y) + 1 else Pos(s, y);
      assert r[q] == y;
      PosOfIndex(r, q);
    }
  }

  /** The predecessor of position `i`, `None` at the head. */
  function Before(s: seq<Id>, i: nat): Option<Id>
    requires i < |s|
  {
    if i == 0 then None else Some(s[i - 1])
  }

  /** One step of the pass. */
  function Move(s: seq<Id>, after: Option<Id>, x: Id): Option<seq<Id>> {
    Place(Without(s, x), after, x)
  }

  /** `x` has not been moved by the first `i` steps, and is in both lists. */
  ghost predicate Still(have: seq<Id>, wanted: seq<Id>, moved: seq<bool>, i: nat, x: Id)
    requires |moved| == |wanted|
  {
    x in have && x in wanted && (Pos(wanted, x) < i ==> !moved[Pos(wanted, x)])
  }

  /** An id the next step does not move is still unmoved. */
  lemma StillStep(have: seq<Id>, wanted: seq<Id>, moved: seq<bool>, i: nat, x: Id)
    requires |moved| == |wanted| && i < |wanted| && Distinct(wanted)
    requires Still(have, wanted, moved, i, x) && (moved[i] ==> x != wanted[i])
    ensures Still(have, wanted, moved, i + 1, x)
  {
    PosOfIndex(wanted, i);
  }

  /** Step `j` put `wanted[j]` where it belongs relative to its predecessor. */
  ghost predicate Settled(wanted: seq<Id>, cur: seq<Id>, j: nat)
    requires j < |wanted|
  {
    if j == 0 then cur != [] && cur[0] == wanted[0]
    else wanted[j - 1] in cur && wanted[j] in cur && Pos(cur, wanted[j]) == Pos(cur, wanted[j - 1]) + 1
  }

  ghost predicate SameOrder(have: seq<Id>, cur: seq<Id>, x: Id, y: Id) {
    Pos(cur, x) < Pos(cur, y) <==> Pos(have, x) < Pos(have, y)
  }

  ghost predicate Inv(have: seq<Id>, wanted: seq<Id>, moved: seq<bool>, cur: seq<Id>, i: nat)
    requires |moved| == |wanted| && i <= |wanted|
  {
    && Distinct(cur)
    && (forall x :: x in cur <==> (x in have && x in wanted) || x in wanted[..i])
    && (forall j :: 0 <= j < i && moved[j] ==> Settled(wanted, cur, j))
    && (forall x, y :: Still(have, wanted, moved, i, x) && Still(have, wanted, moved, i, y) ==>
          SameOrder(have, cur, x, y))
  }

  lemma KeepStep(have: seq<Id>, wanted: seq<Id>, moved: seq<bool>, cur: seq<Id>, i: nat)
    requires |moved| == |wanted| && i < |wanted| && Distinct(wanted)
    requires !moved[i] && wanted[i] in have
    requires Inv(have, wanted, moved, cur, i)
    ensures Inv(have, wanted, moved, cur, i + 1)
  {
    assert wanted[..i + 1] == wanted[..i] + [wanted[i]];
    forall x | Still(have, wanted, moved, i + 1, x)
      ensures Still(have, wanted, moved, i, x)
    {
    }
  }

  /** Where the anchor puts the moved id. */
  ghost function Slot(cur: seq<Id>, after: Option<Id>, x: Id): nat {
    if after.None? then 0 else Pos(Without(cur, x), after.value) + 1
  }

  lemma MoveOk(cur: seq<Id>, after: Option<Id>, x: Id)
    requires Distinct(cur)
    requires after.Some? ==> after.value in cur && after.value != x
    ensures Move(cur, after, x).Some?
    ensures var next := Move(cur, after, x).value; Distinct(next) && x in next && Pos(next, x) == Slot(cur, after, x)
  {
    MoveShape(cur, after, x);
    WithoutDistinct(cur, x);
    InsertDistinct(Without(cur, x), Slot(cur, after, x), x);
    assert Move(cur, after, x).value[Slot(cur, after, x)] == x;
  }

  lemma InWithout(s: seq<Id>, x: Id, y: Id)
    requires y != x && y in s
    ensures y in Without(s, x)
  {
    if x in s {
      var p, k := Pos(s, x), Pos(s, y);
      assert Without(s, x)[if k < p then k else k - 1] == y;
    }
  }

  lemma MoveShape(cur: seq<Id>, after: Option<Id>, x: Id)
    requires after.Some? ==> after.value in cur && after.value != x
    ensures Slot(cur, after, x) <= |Without(cur, x)|
    ensures Move(cur, after, x) == Some(InsertAt(Without(cur, x), Slot(cur, after, x), x))
  {
    if after.Some? {
      InWithout(cur, x, after.value);
    }
  }

  /** Where position `p` goes when what stood at `px` is taken out and put back at `slot`. */
  function Shift(px: nat, slot: nat, p: nat): nat {
    var m := if px < p then p - 1 else p;
    if slot <= m then m + 1 else m
  }

  /** Where another id `y` ends up. */
  lemma MoveAt(cur: seq<Id>, after: Option<Id>, x: Id, y: Id)
    requires Distinct(cur) && y != x
    requires after.Some? ==> after.value in cur && after.value != x
    ensures Move(cur, after, x).Some?
    ensures var next := Move(cur, after, x).value;
      && (y in next <==> y in cur)
      && (y in cur ==> Pos(next, y) == Shift(Pos(cur, x), Slot(cur, after, x), Pos(cur, y)))
  {
    MoveOk(cur, after, x);
    WithoutDistinct(cur, x);
    WithoutAt(cur, x, y);
    InsertedAt(Without(cur, x), Slot(cur, after, x), x, y);
  }

  lemma SettledStep(wanted: seq<Id>, cur: seq<Id>, next: seq<Id>, i: nat, j: nat)
    requires Distinct(wanted) && Distinct(cur) && j <= i < |wanted|
    requires j < i ==> wanted[j] in cur && Settled(wanted, cur, j)
    requires i > 0 ==> wanted[i - 1] in cur
    requires Move(cur, Before(wanted, i), wanted[i]) == Some(next)
    ensures Settled(wanted, next, j)
  {
    if i == 0 {
      MoveOk(cur, None, wanted[0]);
    } else if j == i {
      LandsAfter(cur, wanted[i - 1], wanted[i]);
    } else if j == 0 {
      HeadStays(cur, wanted[i - 1], wanted[i], wanted[0]);
    } else {
      NeighboursStay(cur, wanted[i - 1], wanted[i], wanted[j - 1], wanted[j]);
    }
  }

  /** The moved id stands right after its anchor. */
  lemma LandsAfter(cur: seq<Id>, a: Id, x: Id)
    requires Distinct(cur) && a in cur && a != x
    ensures Move(cur, Some(a), x).Some?
    ensures var next := Move(cur, Some(a), x).value; x in next && a in next && Pos(next, x) == Pos(next, a) + 1
  {
    MoveOk(cur, Some(a), x);
    WithoutAt(cur, x, a);
    MoveAt(cur, Some(a), x, a);
  }

  /** Another id at the head stays there. */
  lemma HeadStays(cur: seq<Id>, a: Id, x: Id, y: Id)
    requires Distinct(cur) && a in cur && a != x && y != x && cur != [] && cur[0] == y
    ensures Move(cur, Some(a), x).Some?
    ensures var next := Move(cur, Some(a), x).value; next != [] && next[0] == y
  {
    PosOfIndex(cur, 0);
    WithoutAt(cur, x, a);
    MoveAt(cur, Some(a), x, y);
  }

  /** Two neighbours the move does not part: the anchor is not the first of them. */
  lemma NeighboursStay(cur: seq<Id>, a: Id, x: Id, y: Id, z: Id)
    requires Distinct(cur) && a in cur && a != x && y in cur && z in cur && y != x && z != x && a != y
    requires Pos(cur, z) == Pos(cur, y) + 1
    ensures Move(cur, Some(a), x).Some?
    ensures var next := Move(cur, Some(a), x).value; y in next && z in next && Pos(next, z) == Pos(next, y) + 1
  {
    MoveAt(cur, Some(a), x, y);
    MoveAt(cur, Some(a), x, z);
    AnchorSlot(cur, a, x);
    Apart(cur, a, y);
    Apart(cur, x, a);
    Apart(cur, x, y);
    Apart(cur, x, z);
    ShiftNeighbours(Pos(cur, x), Pos(cur, a), Pos(cur, y));
  }

  lemma Apart(s: seq<Id>, a: Id, b: Id)
    requires b in s && a != b
    ensures Pos(s, a) != Pos(s, b)
  {
  }

  lemma AnchorSlot(cur: seq<Id>, a: Id, x: Id)
    requires Distinct(cur) && a in cur && a != x
    ensures Slot(cur, Some(a), x) == if Pos(cur, x) < Pos(cur, a) then Pos(cur, a) else Pos(cur, a) + 1
  {
    WithoutAt(cur, x, a);
  }

  lemma ShiftNeighbours(px: nat, pa: nat, p: nat)
    requires px != p && px != p + 1 && px != pa && pa != p
    ensures var slot := if px < pa then pa else pa + 1; Shift(px, slot, p + 1) == Shift(px, slot, p) + 1
  {
  }

  lemma OrderStep(have: seq<Id>, wanted: seq<Id>, cur: seq<Id>, next: seq<Id>, i: nat, a: Id, b: Id)
    requires i < |wanted| && Distinct(wanted) && Distinct(cur)
    requires a in cur && b in cur && a != wanted[i] && b != wanted[i]
    requires SameOrder(have, cur, a, b)
    requires i > 0 ==> wanted[i - 1] in cur
    requires Move(cur, Before(wanted, i), wanted[i]) == Some(next)
    ensures SameOrder(have, next, a, b)
  {
    MoveAt(cur, Before(wanted, i), wanted[i], a);
    MoveAt(cur, Before(wanted, i), wanted[i], b);
    Apart(cur, wanted[i], a);
    Apart(cur, wanted[i], b);
    ShiftOrder(Pos(cur, wanted[i]), Slot(cur, Before(wanted, i), wanted[i]), Pos(cur, a), Pos(cur, b));
  }

  lemma ShiftOrder(px: nat, slot: nat, p: nat, q: nat)
    requires px != p && px != q
    ensures Shift(px, slot, p) < Shift(px, slot, q) <==> p < q
  {
  }

  lemma MovedMember(have: seq<Id>, wanted: seq<Id>, moved: seq<bool>, cur: seq<Id>, next: seq<Id>, i: nat, y: Id)
    requires |moved| == |wanted| && i < |wanted| && Distinct(cur) && (i > 0 ==> wanted[i - 1] in cur && wanted[i - 1] != wanted[i])
    requires y in cur <==> (y in have && y in wanted) || y in wanted[..i]
    requires Move(cur, Before(wanted, i), wanted[i]) == Some(next)
    ensures y in next <==> (y in have && y in wanted) || y in wanted[..i + 1]
  {
    assert wanted[..i + 1] == wanted[..i] + [wanted[i]];
    if y != wanted[i] {
      MoveAt(cur, Before(wanted, i), wanted[i], y);
    } else {
      MoveOk(cur, Before(wanted, i), wanted[i]);
    }
  }

  /** What the pass keeps says of two ids it has not moved by now. */
  lemma StillBefore(have: seq<Id>, wanted: seq<Id>, moved: seq<bool>, i: nat, a: Id)
    requires |moved| == |wanted| && i < |wanted| && Distinct(wanted) && moved[i] && Still(have, wanted, moved, i + 1, a)
    ensures Still(have, wanted, moved, i, a) && a != wanted[i]
  {
    PosOfIndex(wanted, i);
  }

  lemma MoveStep(have: seq<Id>, wanted: seq<Id>, moved: seq<bool>, cur: seq<Id>, i: nat)
    requires |moved| == |wanted| && i < |wanted| && Distinct(wanted)
    requires moved[i]
    requires Inv(have, wanted, moved, cur, i)
    ensures Move(cur, Before(wanted, i), wanted[i]).Some?
    ensures Inv(have, wanted, moved, Move(cur, Before(wanted, i), wanted[i]).value, i + 1)
  {
    var x, after, n := wanted[i], Before(wanted, i), i + 1;
    if i > 0 {
      assert wanted[i - 1] in wanted[..i];
    }
    MoveOk(cur, after, x);
    var next := Move(cur, after, x).value;
    forall y ensures y in next <==> (y in have && y in wanted) || y in wanted[..n] {
      MovedMember(have, wanted, moved, cur, next, i, y);
    }
    forall j | 0 <= j < n && moved[j] ensures Settled(wanted, next, j) {
      if j < i {
        assert wanted[j] in wanted[..i];
      }
      SettledStep(wanted, cur, next, i, j);
    }
    forall a, b | Still(have, wanted, moved, n, a) && Still(have, wanted, moved, n, b) ensures SameOrder(have, next, a, b) {
      StillBefore(have, wanted, moved, i, a);
      StillBefore(have, wanted, moved, i, b);
      OrderStep(have, wanted, cur, next, i, a, b);
    }
  }

  /** The untouched ids stand in `have` in the order `wanted` lists them. */
  ghost predicate UntouchedInOrder(have: seq<Id>, wanted: seq<Id>, moved: seq<bool>)
    requires |moved| == |wanted|
  {
    forall i, j :: 0 <= i < j < |wanted| && !moved[i] && !moved[j] ==>
      Pos(have, wanted[i]) < Pos(have, wanted[j])
  }

  lemma NotEarlier(wanted: seq<Id>, cur: seq<Id>, j: nat)
    requires Distinct(wanted) && j < |wanted| && j <= |cur| && cur[..j] == wanted[..j] && wanted[j] in cur
    ensures Pos(cur, wanted[j]) >= j
  {
    assert forall p :: 0 <= p < j ==> cur[p] == cur[..j][p] == wanted[p];
  }

  lemma SettledIsNext(wanted: seq<Id>, cur: seq<Id>, n: nat)
    requires Distinct(cur) && n < |wanted| && n <= |cur| && cur[..n] == wanted[..n]
    requires Settled(wanted, cur, n)
    ensures n < |cur| && cur[n] == wanted[n]
  {
    if n > 0 {
      assert cur[n - 1] == cur[..n][n - 1] == wanted[n - 1];
      PosOfIndex(cur, n - 1);
    }
  }

  /** A moved id follows its predecessor, so it cannot open the part not yet known to be right. */
  lemma MovedIsNotFirst(wanted: seq<Id>, cur: seq<Id>, n: nat, j: nat)
    requires Distinct(wanted) && Distinct(cur) && n < j < |wanted|
    requires n < |cur| && cur[..n] == wanted[..n] && cur[n] == wanted[j]
    ensures !Settled(wanted, cur, j)
  {
    PosOfIndex(cur, n);
    assert forall q :: 0 <= q < n ==> cur[q] == cur[..n][q] == wanted[q];
  }

  /** No other id can stand where the untouched `wanted[n]` should be. */
  lemma StrayHead(have: seq<Id>, wanted: seq<Id>, moved: seq<bool>, cur: seq<Id>, n: nat)
    requires |moved| == |wanted| && Distinct(wanted) && n < |wanted|
    requires forall i :: 0 <= i < |wanted| && !moved[i] ==> wanted[i] in have
    requires Inv(have, wanted, moved, cur, |wanted|)
    requires UntouchedInOrder(have, wanted, moved)
    requires n < |cur| && cur[..n] == wanted[..n] && !moved[n]
    ensures cur[n] == wanted[n]
  {
    var y := cur[n];
    assert y in wanted by {
      assert wanted[..|wanted|] == wanted;
      assert y in cur;
    }
    var j := Pos(wanted, y);
    assert j >= n by {
      assert forall q :: 0 <= q < n ==> cur[q] == cur[..n][q] == wanted[q];
    }
    if j > n {
      if moved[j] {
        assert Settled(wanted, cur, j);
        MovedIsNotFirst(wanted, cur, n, j);
      } else {
        BothUntouched(have, wanted, moved, cur, n, j);
      }
    }
  }

  lemma BothUntouched(have: seq<Id>, wanted: seq<Id>, moved: seq<bool>, cur: seq<Id>, n: nat, j: nat)
    requires |moved| == |wanted| && Distinct(wanted) && n < j < |wanted| && Distinct(cur)
    requires !moved[n] && !moved[j] && wanted[n] in have && wanted[j] in have
    requires Still(have, wanted, moved, |wanted|, wanted[n]) && Still(have, wanted, moved, |wanted|, wanted[j]) ==>
      SameOrder(have, cur, wanted[j], wanted[n])
    requires UntouchedInOrder(have, wanted, moved)
    requires n < |cur| && cur[..n] == wanted[..n] && wanted[n] in cur
    ensures cur[n] != wanted[j]
  {
    PosOfIndex(wanted, n);
    PosOfIndex(wanted, j);
    if cur[n] == wanted[j] {
      PosOfIndex(cur, n);
      NotEarlier(wanted, cur, n);
    }
  }

  /** Under the order condition, once the first `n` places are right the next one is. */
  lemma NextReached(have: seq<Id>, wanted: seq<Id>, moved: seq<bool>, cur: seq<Id>, n: nat)
    requires |moved| == |wanted| == |cur| && Distinct(wanted) && n < |wanted|
    requires forall i :: 0 <= i < |wanted| && !moved[i] ==> wanted[i] in have
    requires Inv(have, wanted, moved, cur, |wanted|)
    requires UntouchedInOrder(have, wanted, moved)
    requires cur[..n] == wanted[..n]
    ensures cur[n] == wanted[n]
  {
    if moved[n] {
      SettledIsNext(wanted, cur, n);
    } else {
      StrayHead(have, wanted, moved, cur, n);
    }
  }

  lemma FirstDifference(a: seq<Id>, b: seq<Id>) returns (k: nat)
    requires |a| == |b|
    ensures k <= |a| && a[..k] == b[..k] && (k < |a| ==> a[k] != b[k])
    ensures k == |a| ==> a == b
  {
    k := 0;
    while k < |a| && a[k] == b[k]
      invariant k <= |a| && a[..k] == b[..k]
    {
      assert a[..k + 1] == a[..k] + [a[k]] && b[..k + 1] == b[..k] + [b[k]];
      k := k + 1;
    }
    assert a[..|a|] == a && b[..|b|] == b;
  }

  /** The pass ends at `wanted` if and only if the untouched ids were in order. */
  lemma PassReaches(have: seq<Id>, wanted: seq<Id>, moved: seq<bool>, cur: seq<Id>)
    requires |moved| == |wanted| && Distinct(wanted) && Distinct(have)
    requires forall i :: 0 <= i < |wanted| && !moved[i] ==> wanted[i] in have
    requires Inv(have, wanted, moved, cur, |wanted|)
    ensures |cur| == |wanted|
    ensures cur == wanted <==> UntouchedInOrder(have, wanted, moved)
  {
    assert wanted[..|wanted|] == wanted;
    SameElementsSameLength(cur, wanted);
    if UntouchedInOrder(have, wanted, moved) {
      var n := FirstDifference(cur, wanted);
      if n < |wanted| {
        NextReached(have, wanted, moved, cur, n);
      }
    }
    if cur == wanted {
      forall i, j | 0 <= i < j < |wanted| && !moved[i] && !moved[j]
        ensures Pos(have, wanted[i]) < Pos(have, wanted[j])
      {
        PosOfIndex(wanted, i);
        PosOfIndex(wanted, j);
        assert Still(have, wanted, moved, |wanted|, wanted[i]) && Still(have, wanted, moved, |wanted|, wanted[j]);
        assert SameOrder(have, cur, wanted[i], wanted[j]);
      }
    }
  }

  lemma SameElementsSameLength(a: seq<Id>, b: seq<Id>)
    requires Distinct(a) && Distinct(b)
    requires forall x :: x in a <==> x in b
    ensures |a| == |b|
  {
    DistinctCardinality(a);
    DistinctCardinality(b);
    assert (set x | x in a) == (set x | x in b);
  }

  lemma {:induction false} DistinctCardinality(a: seq<Id>)
    requires Distinct(a)
    ensures |set x | x in a| == |a|
  {
    if a != [] {
      var rest := a[..|a| - 1];
      DistinctCardinality(rest);
      assert a == rest + [a[|a| - 1]];
      assert (set x | x in a) == (set x | x in rest) + {a[|a| - 1]};
    }
  }
}
