/** Picking items out of a list by a mark on each place, in order. */
module Picking {
  /** The marked places below `n`, in order. */
  ghost function Marked(marks: seq<bool>, n: nat): (at: seq<nat>)
    requires n <= |marks|
    ensures forall j :: 0 <= j < |at| ==> at[j] < n && marks[at[j]]
    ensures forall a, b :: 0 <= a < b < |at| ==> at[a] < at[b]
  {
    if n == 0 then [] else Marked(marks, n - 1) + if marks[n - 1] then [n - 1] else []
  }

  lemma {:induction false} MarkedAll(marks: seq<bool>, n: nat, i: nat)
    requires i < n <= |marks| && marks[i]
    ensures i in Marked(marks, n)
  {
    if i < n - 1 {
      MarkedAll(marks, n - 1, i);
    } else {
      assert Marked(marks, n)[|Marked(marks, n - 1)|] == i;
    }
  }

  lemma {:induction false} MarkedNone(marks: seq<bool>, n: nat)
    requires n <= |marks| && forall i :: 0 <= i < n ==> !marks[i]
    ensures Marked(marks, n) == []
  {
    if n > 0 {
      MarkedNone(marks, n - 1);
    }
  }

  lemma {:induction false} MarkedOne(marks: seq<bool>, n: nat, i: nat)
    requires i < n <= |marks| && forall j :: 0 <= j < n ==> (marks[j] <==> j == i)
    ensures Marked(marks, n) == [i]
  {
    var before := Marked(marks, n - 1);
    if i == n - 1 {
      MarkedNone(marks, n - 1);
      assert Marked(marks, n) == before + [i];
    } else {
      MarkedOne(marks, n - 1, i);
      assert Marked(marks, n) == before + [];
    }
  }

  /** Step `j` of a list built item by item adds the item at `j` if it is marked. */
  ghost predicate Adds<T>(lists: seq<seq<T>>, marks: seq<bool>, items: seq<T>, j: nat) {
    j < |marks| && j < |items| && j + 1 < |lists|
    && lists[j + 1] == lists[j] + if marks[j] then [items[j]] else []
  }

  /** A list built so holds the marked items in order. */
  lemma {:induction false} Built<T>(lists: seq<seq<T>>, marks: seq<bool>, items: seq<T>, n: nat)
    requires n < |lists| && n <= |marks| && n <= |items| && lists[0] == []
    requires forall j: nat :: j < n ==> Adds(lists, marks, items, j)
    ensures |lists[n]| == |Marked(marks, n)|
    ensures forall m :: 0 <= m < |lists[n]| ==> lists[n][m] == items[Marked(marks, n)[m]]
  {
    if n > 0 {
      Built(lists, marks, items, n - 1);
      assert Adds(lists, marks, items, n - 1);
    }
  }

  /** `list` holds exactly the marked items, in order. */
  ghost predicate Picks<T>(list: seq<T>, items: seq<T>, marks: seq<bool>) {
    && |marks| == |items|
    && |list| == |Marked(marks, |marks|)|
    && forall m :: 0 <= m < |list| ==> list[m] == items[Marked(marks, |marks|)[m]]
  }

  lemma BuiltPicks<T>(lists: seq<seq<T>>, marks: seq<bool>, items: seq<T>)
    requires |lists| == |items| + 1 && |marks| == |items| && lists[0] == []
    requires forall j: nat :: j < |items| ==> Adds(lists, marks, items, j)
    ensures Picks(lists[|items|], items, marks)
  {
    Built(lists, marks, items, |items|);
  }

  lemma {:induction false} MarkedPush(marks: seq<bool>, mark: bool, n: nat)
    requires n <= |marks|
    ensures Marked(marks + [mark], n) == Marked(marks, n)
  {
    if n > 0 {
      MarkedPush(marks, mark, n - 1);
    }
  }

  /** One more item, picked or passed over. */
  lemma PicksPush<T>(list: seq<T>, items: seq<T>, marks: seq<bool>, item: T, mark: bool)
    requires Picks(list, items, marks)
    ensures Picks(if mark then list + [item] else list, items + [item], marks + [mark])
  {
    MarkedPush(marks, mark, |marks|);
  }

  /** The same, seen from the longer list. */
  lemma PicksSnoc<T>(init: seq<T>, list: seq<T>, items: seq<T>, marks: seq<bool>)
    requires items != [] && |marks| == |items| && Picks(init, items[..|items| - 1], marks[..|items| - 1])
    requires list == init + if marks[|items| - 1] then [items[|items| - 1]] else []
    ensures Picks(list, items, marks)
  {
    var n := |items| - 1;
    MarkedPrefix(marks, n, n);
    forall m | 0 <= m < |list| ensures list[m] == items[Marked(marks, n + 1)[m]] {
      assert m < |init| ==> list[m] == init[m] == items[..n][Marked(marks, n)[m]];
    }
  }

  lemma {:induction false} MarkedPrefix(marks: seq<bool>, n: nat, m: nat)
    requires m <= n <= |marks|
    ensures Marked(marks[..n], m) == Marked(marks, m)
  {
    if m > 0 {
      MarkedPrefix(marks, n, m - 1);
    }
  }

  /** What is picked is marked, and what is marked is picked. */
  lemma PicksMembers<T>(list: seq<T>, items: seq<T>, marks: seq<bool>, x: T)
    requires Picks(list, items, marks)
    ensures x in list <==> exists i :: 0 <= i < |items| && marks[i] && items[i] == x
  {
    var at := Marked(marks, |marks|);
    if x in list {
      var m :| 0 <= m < |list| && list[m] == x;
      assert marks[at[m]] && items[at[m]] == x;
    }
    if i :| 0 <= i < |items| && marks[i] && items[i] == x {
      MarkedAll(marks, |marks|, i);
      var m :| 0 <= m < |at| && at[m] == i;
      assert list[m] == x;
    }
  }
}
