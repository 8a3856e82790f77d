/**
  The `uniqueItems` loop over any equality: an item is reported when it equals one already kept in
  `seen`, and kept otherwise.
  */
module DistinctItems {
  ghost predicate Equivalence<T(!new)>(eq: (T, T) -> bool) {
    && (forall x :: eq(x, x))
    && (forall x, y :: eq(x, y) ==> eq(y, x))
    && (forall x, y, z :: eq(x, y) && eq(y, z) ==> eq(x, z))
  }

  predicate EqualsOneOf<T>(eq: (T, T) -> bool, item: T, seen: seq<T>) {
    exists i | 0 <= i < |seen| :: eq(item, seen[i])
  }

  /** `seen` after the first `n` items. */
  function Seen<T>(eq: (T, T) -> bool, items: seq<T>, n: nat): seq<T>
    requires n <= |items|
  {
    if n == 0 then []
    else
      var seen := Seen(eq, items, n - 1);
      if EqualsOneOf(eq, items[n - 1], seen) then seen else seen + [items[n - 1]]
  }

  /** The positions reported among the first `n`. */
  function Repeats<T>(eq: (T, T) -> bool, items: seq<T>, n: nat): seq<nat>
    requires n <= |items|
  {
    if n == 0 then []
    else
      Repeats(eq, items, n - 1)
      + if EqualsOneOf(eq, items[n - 1], Seen(eq, items, n - 1)) then [n - 1] else []
  }

  lemma {:induction false} EveryItemIsReportedOrKept<T>(eq: (T, T) -> bool, items: seq<T>, n: nat)
    requires n <= |items|
    ensures |Seen(eq, items, n)| + |Repeats(eq, items, n)| == n
  {
    if n > 0 { EveryItemIsReportedOrKept(eq, items, n - 1); }
  }

  lemma {:induction false} SeenComesFrom<T>(eq: (T, T) -> bool, items: seq<T>, n: nat, k: nat) returns (i: nat)
    requires n <= |items| && k < |Seen(eq, items, n)|
    ensures i < n && items[i] == Seen(eq, items, n)[k]
  {
    if k < |Seen(eq, items, n - 1)| { i := SeenComesFrom(eq, items, n - 1, k); } else { i := n - 1; }
  }

  lemma {:induction false} SeenCovers<T(!new)>(eq: (T, T) -> bool, items: seq<T>, n: nat, i: nat) returns (k: nat)
    requires n <= |items| && i < n && Equivalence(eq)
    ensures k < |Seen(eq, items, n)| && eq(items[i], Seen(eq, items, n)[k])
  {
    if i < n - 1 {
      k := SeenCovers(eq, items, n - 1, i);
    } else if EqualsOneOf(eq, items[n - 1], Seen(eq, items, n - 1)) {
      k :| 0 <= k < |Seen(eq, items, n - 1)| && eq(items[n - 1], Seen(eq, items, n - 1)[k]);
    } else {
      k := |Seen(eq, items, n - 1)|;
    }
  }

  /** Comparing with the kept items only is as good as comparing with all the earlier ones. */
  lemma RepeatMeansEqualToEarlier<T(!new)>(eq: (T, T) -> bool, items: seq<T>, n: nat)
    requires n < |items| && Equivalence(eq)
    ensures EqualsOneOf(eq, items[n], Seen(eq, items, n)) <==> EqualsOneOf(eq, items[n], items[..n])
  {
    var seen := Seen(eq, items, n);
    if EqualsOneOf(eq, items[n], seen) {
      var k :| 0 <= k < |seen| && eq(items[n], seen[k]);
      var i := SeenComesFrom(eq, items, n, k);
      assert items[..n][i] == seen[k];
    }
    if EqualsOneOf(eq, items[n], items[..n]) {
      var i :| 0 <= i < n && eq(items[n], items[..n][i]);
      var k := SeenCovers(eq, items, n, i);
      assert eq(items[i], seen[k]);
    }
  }

  /** What the loop needs from the equality; it holds of every equivalence. */
  ghost predicate Faithful<T>(eq: (T, T) -> bool, items: seq<T>) {
    forall n | 0 <= n < |items| ::
      EqualsOneOf(eq, items[n], Seen(eq, items, n)) <==> EqualsOneOf(eq, items[n], items[..n])
  }

  lemma EquivalencesAreFaithful<T(!new)>(eq: (T, T) -> bool, items: seq<T>)
    requires Equivalence(eq)
    ensures Faithful(eq, items)
  {
    forall n | 0 <= n < |items|
      ensures EqualsOneOf(eq, items[n], Seen(eq, items, n)) <==> EqualsOneOf(eq, items[n], items[..n])
    {
      RepeatMeansEqualToEarlier(eq, items, n);
    }
  }

  ghost predicate PairwiseDistinct<T>(eq: (T, T) -> bool, items: seq<T>) {
    forall i, j | 0 <= i < j < |items| :: !eq(items[j], items[i])
  }

  lemma DistinctSnoc<T>(eq: (T, T) -> bool, front: seq<T>, last: T)
    ensures PairwiseDistinct(eq, front + [last]) <==> PairwiseDistinct(eq, front) && !EqualsOneOf(eq, last, front)
  {
    var all := front + [last];
    if PairwiseDistinct(eq, all) {
      forall i, j | 0 <= i < j < |front| ensures !eq(front[j], front[i]) { assert !eq(all[j], all[i]); }
      forall i | 0 <= i < |front| ensures !eq(last, front[i]) { assert !eq(all[|front|], all[i]); }
    }
  }

  lemma FaithfulAt<T>(eq: (T, T) -> bool, items: seq<T>, n: nat)
    requires n < |items| && Faithful(eq, items)
    ensures EqualsOneOf(eq, items[n], Seen(eq, items, n)) <==> EqualsOneOf(eq, items[n], items[..n])
  {}

  /** Nothing is reported exactly when the items are pairwise distinct. */
  lemma {:induction false} NoRepeatsMeansDistinct<T>(eq: (T, T) -> bool, items: seq<T>, n: nat)
    requires n <= |items| && Faithful(eq, items)
    ensures Repeats(eq, items, n) == [] <==> PairwiseDistinct(eq, items[..n])
  {
    hide Faithful, PairwiseDistinct, EqualsOneOf, Seen, Repeats;
    if n == 0 {
      NothingYet(eq, items);
    } else {
      NoRepeatsMeansDistinct(eq, items, n - 1);
      FaithfulAt(eq, items, n - 1);
      RepeatsStep(eq, items, n);
      assert items[..n] == items[..n - 1] + [items[n - 1]];
      DistinctSnoc(eq, items[..n - 1], items[n - 1]);
    }
  }

  lemma NothingYet<T>(eq: (T, T) -> bool, items: seq<T>)
    ensures Repeats(eq, items, 0) == [] && PairwiseDistinct(eq, items[..0])
  {}

  lemma RepeatsStep<T>(eq: (T, T) -> bool, items: seq<T>, n: nat)
    requires 0 < n <= |items|
    ensures Repeats(eq, items, n) == [] <==>
      Repeats(eq, items, n - 1) == [] && !EqualsOneOf(eq, items[n - 1], Seen(eq, items, n - 1))
  {}

  /** The positions of the items equal to the one at `i`. */
  ghost function ClassOf<T>(eq: (T, T) -> bool, items: seq<T>, i: nat): set<nat>
    requires i < |items|
  {
    set j: nat | j < |items| && eq(items[i], items[j])
  }

  /** The equivalence classes that the first `n` items meet. */
  ghost function Classes<T>(eq: (T, T) -> bool, items: seq<T>, n: nat): set<set<nat>>
    requires n <= |items|
  {
    set i: nat | i < n :: ClassOf(eq, items, i)
  }

  lemma SameClass<T(!new)>(eq: (T, T) -> bool, items: seq<T>, i: nat, j: nat)
    requires i < |items| && j < |items| && Equivalence(eq)
    ensures ClassOf(eq, items, i) == ClassOf(eq, items, j) <==> eq(items[i], items[j])
  {
    if !eq(items[i], items[j]) { assert j in ClassOf(eq, items, j) && j !in ClassOf(eq, items, i); }
  }

  /** An item brings a new class exactly when it equals no earlier one. */
  lemma NewClass<T(!new)>(eq: (T, T) -> bool, items: seq<T>, n: nat)
    requires n < |items| && Equivalence(eq)
    ensures ClassOf(eq, items, n) in Classes(eq, items, n) <==> EqualsOneOf(eq, items[n], items[..n])
  {
    forall i: nat | i < n ensures ClassOf(eq, items, n) == ClassOf(eq, items, i) <==> eq(items[n], items[..n][i]) {
      SameClass(eq, items, n, i);
    }
    if EqualsOneOf(eq, items[n], items[..n]) {
      var i :| 0 <= i < n && eq(items[n], items[..n][i]);
      assert ClassOf(eq, items, i) in Classes(eq, items, n);
    }
  }

  lemma {:induction false} OneKeptPerClass<T(!new)>(eq: (T, T) -> bool, items: seq<T>, n: nat)
    requires n <= |items| && Equivalence(eq)
    ensures |Classes(eq, items, n)| == |Seen(eq, items, n)|
  {
    hide Equivalence, EqualsOneOf, ClassOf;
    if n == 0 {
      assert Classes(eq, items, 0) == {};
    } else {
      OneKeptPerClass(eq, items, n - 1);
      RepeatMeansEqualToEarlier(eq, items, n - 1);
      NewClass(eq, items, n - 1);
      ClassesSnoc(eq, items, n - 1);
    }
  }

  lemma ClassesSnoc<T>(eq: (T, T) -> bool, items: seq<T>, n: nat)
    requires n < |items|
    ensures Classes(eq, items, n + 1) == Classes(eq, items, n) + {ClassOf(eq, items, n)}
    ensures |Classes(eq, items, n + 1)|
         == |Classes(eq, items, n)| + if ClassOf(eq, items, n) in Classes(eq, items, n) then 0 else 1
  {
    assert Classes(eq, items, n + 1) == Classes(eq, items, n) + {ClassOf(eq, items, n)};
    if ClassOf(eq, items, n) in Classes(eq, items, n) {
      assert Classes(eq, items, n + 1) == Classes(eq, items, n);
    }
  }

  /** The number of reports is the number of items less the number of classes. */
  lemma RepeatsCounted<T(!new)>(eq: (T, T) -> bool, items: seq<T>)
    requires Equivalence(eq)
    ensures |Repeats(eq, items, |items|)| == |items| - |Classes(eq, items, |items|)|
  {
    OneKeptPerClass(eq, items, |items|);
    EveryItemIsReportedOrKept(eq, items, |items|);
  }
}
