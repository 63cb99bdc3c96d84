/**
 * `sortByDailyValue`: a profile's entries in iteration order, sorted by
 * ascending percent of the daily value, a missing percentage counting as 1.1.
 *
 * JavaScript's `Array.prototype.sort` is stable, so its result is fixed by
 * the comparator alone; the model sorts with a stable insertion sort, done in
 * place on an array, and proves the result sorted, a permutation of the
 * entries and stable.
 */
module Ordering {
  import opened Options
  import opened JsMaps
  import opened Nutrients
  import opened Profiles

  /** One `[key, value]` pair of the profile. */
  type Entry = (Nutrient, UnitValue)

  /** The comparator's key: `percentDaily ?? 1.1`, a missing percentage counting as 1.1. */
  function Weight(e: Entry): (w: real)
    ensures e.1.percentDaily.Some? ==> w == e.1.percentDaily.value
    ensures e.1.percentDaily.None? ==> w == 1.1
  {
    e.1.percentDaily.GetOr(1.1)
  }

  /** Non-decreasing in weight. */
  predicate Sorted(s: seq<Entry>) {
    forall i, j | 0 <= i < j < |s| :: Weight(s[i]) <= Weight(s[j])
  }

  /** The entries of `s` of weight `w`, in their order in `s`. */
  function WithWeight(s: seq<Entry>, w: real): (r: seq<Entry>)
    ensures |r| <= |s|
  {
    if s == [] then []
    else WithWeight(s[..|s| - 1], w) + (if Weight(s[|s| - 1]) == w then [s[|s| - 1]] else [])
  }

  /** Ties keep their order: for every weight, the entries of that weight come in the same order. */
  ghost predicate StableFrom(r: seq<Entry>, s: seq<Entry>) {
    forall w :: WithWeight(r, w) == WithWeight(s, w)
  }

  /**
   * Where `x` goes in the sorted `s`: after every entry that is not heavier,
   * found by walking from the right past the heavier ones.
   */
  function InsertPos(s: seq<Entry>, x: Entry): (p: nat)
    ensures p <= |s|
  {
    if s == [] || Weight(s[|s| - 1]) <= Weight(x) then |s|
    else InsertPos(s[..|s| - 1], x)
  }

  function Insert(s: seq<Entry>, x: Entry): seq<Entry> {
    var p := InsertPos(s, x);
    s[..p] + [x] + s[p..]
  }

  /** Insertion sort: each entry inserted, in order, into the sorted entries before it. */
  function InsertionSorted(s: seq<Entry>): (r: seq<Entry>)
    ensures |r| == |s|
  {
    if s == [] then [] else Insert(InsertionSorted(s[..|s| - 1]), s[|s| - 1])
  }

  // Properties of the insertion point.

  /** Every entry from the insertion point on is heavier than `x`. */
  lemma {:induction false} InsertPosAfter(s: seq<Entry>, x: Entry)
    ensures forall k | InsertPos(s, x) <= k < |s| :: Weight(s[k]) > Weight(x)
    decreases |s|
  {
    if s != [] && Weight(s[|s| - 1]) > Weight(x) {
      var pre := s[..|s| - 1];
      InsertPosAfter(pre, x);
      assert forall k | 0 <= k < |pre| :: pre[k] == s[k];
    }
  }

  /** In a sorted `s`, every entry before the insertion point is not heavier than `x`. */
  lemma {:induction false} InsertPosBefore(s: seq<Entry>, x: Entry)
    requires Sorted(s)
    ensures forall k | 0 <= k < InsertPos(s, x) :: Weight(s[k]) <= Weight(x)
    decreases |s|
  {
    if s != [] {
      var pre := s[..|s| - 1];
      if Weight(s[|s| - 1]) > Weight(x) {
        assert Sorted(pre);
        InsertPosBefore(pre, x);
      }
    }
  }

  /**
   * The insertion point is characterised by the entries around it: the heavier
   * ones after it and, just before it, one that is not heavier (or nothing).
   */
  lemma {:induction false} InsertPosAt(s: seq<Entry>, x: Entry, j: nat)
    requires j <= |s|
    requires forall k | j <= k < |s| :: Weight(s[k]) > Weight(x)
    requires j == 0 || Weight(s[j - 1]) <= Weight(x)
    ensures InsertPos(s, x) == j
    decreases |s|
  {
    if |s| > j {
      var pre := s[..|s| - 1];
      assert forall k | j <= k < |pre| :: pre[k] == s[k];
      InsertPosAt(pre, x, j);
    }
  }

  // Sorted.

  lemma InsertSorted(s: seq<Entry>, x: Entry)
    requires Sorted(s)
    ensures Sorted(Insert(s, x))
  {
    var p := InsertPos(s, x);
    InsertPosBefore(s, x);
    InsertPosAfter(s, x);
    var r := Insert(s, x);
    forall i, j | 0 <= i < j < |r|
      ensures Weight(r[i]) <= Weight(r[j])
    {
      if j < p {
        assert r[i] == s[i] && r[j] == s[j];
      } else if j == p {
        assert r[i] == s[i] && r[j] == x;
      } else if i < p {
        assert r[i] == s[i] && r[j] == s[j - 1];
      } else if i == p {
        assert r[i] == x && r[j] == s[j - 1];
      } else {
        assert r[i] == s[i - 1] && r[j] == s[j - 1];
      }
    }
  }

  /** The insertion sort's result is non-decreasing in weight. */
  lemma {:induction false} InsertionSortedSorted(s: seq<Entry>)
    ensures Sorted(InsertionSorted(s))
    decreases |s|
  {
    if s != [] {
      InsertionSortedSorted(s[..|s| - 1]);
      InsertSorted(InsertionSorted(s[..|s| - 1]), s[|s| - 1]);
    }
  }

  // Permutation.

  /** The insertion sort's result holds the same entries, each as often. */
  lemma {:induction false} InsertionSortedPermutation(s: seq<Entry>)
    ensures multiset(InsertionSorted(s)) == multiset(s)
    decreases |s|
  {
    if s != [] {
      var pre := s[..|s| - 1];
      var t := InsertionSorted(pre);
      var p := InsertPos(t, s[|s| - 1]);
      InsertionSortedPermutation(pre);
      assert t == t[..p] + t[p..];
      assert s == pre + [s[|s| - 1]];
    }
  }

  // Stability.

  lemma {:induction false} WithWeightAppend(a: seq<Entry>, b: seq<Entry>, w: real)
    ensures WithWeight(a + b, w) == WithWeight(a, w) + WithWeight(b, w)
    decreases |b|
  {
    if b == [] {
      assert a + b == a;
    } else {
      var b' := b[..|b| - 1];
      assert (a + b)[..|a + b| - 1] == a + b';
      WithWeightAppend(a, b', w);
    }
  }

  /** Entries of other weights contribute nothing of weight `w`. */
  lemma {:induction false} WithWeightAbsent(s: seq<Entry>, w: real)
    requires forall k | 0 <= k < |s| :: Weight(s[k]) != w
    ensures WithWeight(s, w) == []
    decreases |s|
  {
    if s != [] {
      var pre := s[..|s| - 1];
      assert forall k | 0 <= k < |pre| :: pre[k] == s[k];
      WithWeightAbsent(pre, w);
    }
  }

  lemma InsertStable(s: seq<Entry>, x: Entry, w: real)
    ensures WithWeight(Insert(s, x), w) == WithWeight(s + [x], w)
  {
    var p := InsertPos(s, x);
    var left, right := s[..p], s[p..];
    var mid := WithWeight([x], w);
    assert WithWeight(s, w) == WithWeight(left, w) + WithWeight(right, w) by {
      assert s == left + right;
      WithWeightAppend(left, right, w);
    }
    assert WithWeight(Insert(s, x), w) == WithWeight(left, w) + mid + WithWeight(right, w) by {
      WithWeightAppend(left + [x], right, w);
      WithWeightAppend(left, [x], w);
    }
    assert WithWeight(s + [x], w) == WithWeight(s, w) + mid by {
      WithWeightAppend(s, [x], w);
    }
    if Weight(x) == w {
      assert WithWeight(right, w) == [] by {
        InsertPosAfter(s, x);
        WithWeightAbsent(right, w);
      }
    } else {
      assert mid == [] by {
        assert [x][..0] == [];
      }
    }
  }

  /** Entries of equal weight keep their order through the insertion sort. */
  lemma {:induction false} InsertionSortedStable(s: seq<Entry>)
    ensures StableFrom(InsertionSorted(s), s)
    decreases |s|
  {
    if s != [] {
      var pre := s[..|s| - 1];
      var x := s[|s| - 1];
      InsertionSortedStable(pre);
      forall w
        ensures WithWeight(InsertionSorted(s), w) == WithWeight(s, w)
      {
        InsertStable(InsertionSorted(pre), x, w);
        WithWeightAppend(InsertionSorted(pre), [x], w);
        WithWeightAppend(pre, [x], w);
        assert s == pre + [x];
      }
    }
  }

  // Uniqueness: sorted and stable fix the result.

  /** The last entry belongs to its own weight class. */
  lemma LastInClass(s: seq<Entry>)
    requires s != []
    ensures WithWeight(s, Weight(s[|s| - 1])) != []
  {
  }

  /** Two sorted, mutually stable sequences end with entries of the same weight. */
  lemma SameLastWeight(u: seq<Entry>, v: seq<Entry>)
    requires u != [] && v != []
    requires Sorted(u) && Sorted(v) && StableFrom(u, v)
    ensures Weight(u[|u| - 1]) == Weight(v[|v| - 1])
  {
    var a, b := Weight(u[|u| - 1]), Weight(v[|v| - 1]);
    if a < b {
      WithWeightAbsent(u, b);
      LastInClass(v);
      assert false;
    } else if b < a {
      WithWeightAbsent(v, a);
      LastInClass(u);
      assert false;
    }
  }

  /** Removing the same last entry from both keeps them mutually stable. */
  lemma DropLastStable(u: seq<Entry>, v: seq<Entry>)
    requires u != [] && v != [] && u[|u| - 1] == v[|v| - 1]
    requires StableFrom(u, v)
    ensures StableFrom(u[..|u| - 1], v[..|v| - 1])
  {
    var u', v', x := u[..|u| - 1], v[..|v| - 1], u[|u| - 1];
    forall w
      ensures WithWeight(u', w) == WithWeight(v', w)
    {
      var tail := if Weight(x) == w then [x] else [];
      assert WithWeight(u, w) == WithWeight(u', w) + tail;
      assert WithWeight(v, w) == WithWeight(v', w) + tail;
      assert WithWeight(u', w) == WithWeight(u, w)[..|WithWeight(u, w)| - |tail|];
    }
  }

  /**
   * Two sequences that are both sorted by weight and hold, weight by weight,
   * the same entries in the same order are equal.
   */
  lemma {:induction false} SortedStableUnique(u: seq<Entry>, v: seq<Entry>)
    requires Sorted(u) && Sorted(v) && StableFrom(u, v)
    ensures u == v
    decreases |u|
  {
    if u == [] {
      if v != [] {
        LastInClass(v);
        assert false;
      }
    } else if v == [] {
      LastInClass(u);
      assert false;
    } else {
      var u', v' := u[..|u| - 1], v[..|v| - 1];
      var x, y := u[|u| - 1], v[|v| - 1];
      SameLastWeight(u, v);
      assert x == y by {
        var w := Weight(x);
        var cu, cv := WithWeight(u, w), WithWeight(v, w);
        assert cu == WithWeight(u', w) + [x] && cu[|cu| - 1] == x;
        assert cv == WithWeight(v', w) + [y] && cv[|cv| - 1] == y;
        assert cu == cv;
      }
      DropLastStable(u, v);
      SortedStableUnique(u', v');
      assert u == u' + [x] && v == v' + [y];
    }
  }

  /**
   * Every stable sort by this comparator returns the insertion sort's result:
   * a sequence sorted by weight that keeps, weight by weight, the order of
   * `s` is `InsertionSorted(s)`.
   */
  lemma StableSortIsInsertionSort(r: seq<Entry>, s: seq<Entry>)
    requires Sorted(r) && StableFrom(r, s)
    ensures r == InsertionSorted(s)
  {
    InsertionSortedSorted(s);
    InsertionSortedStable(s);
    SortedStableUnique(r, InsertionSorted(s));
  }

  // The imperative sort.

  /** The stable in-place sort: `a` ends up holding the insertion sort of its old contents. */
  method SortInPlace(a: array<Entry>)
    modifies a
    ensures a[..] == InsertionSorted(old(a[..]))
  {
    ghost var input := a[..];
    for i := 0 to a.Length
      invariant a[..i] == InsertionSorted(input[..i])
      invariant a[i..] == input[i..]
    {
      ghost var before := a[..];
      var x := a[i];
      var j := ShiftHeavier(a, i, x);
      ghost var shifted := a[..];
      a[j] := x;
      InsertStep(before, shifted, a[..], x, i, j, input);
    }
    assert input[..a.Length] == input;
  }

  /**
   * The inner loop: moves the entries before `i` that are heavier than `x` one
   * place to the right and returns the gap left where `x` belongs.
   */
  method ShiftHeavier(a: array<Entry>, i: nat, x: Entry) returns (j: nat)
    requires i < a.Length
    modifies a
    ensures j <= i
    ensures forall k | 0 <= k < j :: a[k] == old(a[k])
    ensures forall k | j < k <= i :: a[k] == old(a[k - 1])
    ensures forall k | i < k < a.Length :: a[k] == old(a[k])
    ensures forall k | j <= k < i :: Weight(old(a[k])) > Weight(x)
    ensures j == 0 || Weight(old(a[j - 1])) <= Weight(x)
  {
    j := i;
    while j > 0 && Weight(a[j - 1]) > Weight(x)
      invariant j <= i
      invariant forall k | 0 <= k < j :: a[k] == old(a[k])
      invariant forall k | j < k <= i :: a[k] == old(a[k - 1])
      invariant forall k | i < k < a.Length :: a[k] == old(a[k])
      invariant forall k | j <= k < i :: Weight(old(a[k])) > Weight(x)
    {
      a[j] := a[j - 1];
      j := j - 1;
    }
  }

  /** One turn of the outer loop keeps its invariant. */
  lemma InsertStep(before: seq<Entry>, shifted: seq<Entry>, after: seq<Entry>, x: Entry, i: nat, j: nat, input: seq<Entry>)
    requires |before| == |shifted| == |input| && i < |input|
    requires before[..i] == InsertionSorted(input[..i]) && before[i..] == input[i..]
    requires x == before[i] && j <= i
    requires forall k | 0 <= k < j :: shifted[k] == before[k]
    requires forall k | j < k <= i :: shifted[k] == before[k - 1]
    requires forall k | i < k < |before| :: shifted[k] == before[k]
    requires forall k | j <= k < i :: Weight(before[k]) > Weight(x)
    requires j == 0 || Weight(before[j - 1]) <= Weight(x)
    requires after == shifted[j := x]
    ensures after[..i + 1] == InsertionSorted(input[..i + 1])
    ensures after[i + 1..] == input[i + 1..]
  {
    var sorted := before[..i];
    assert InsertionSorted(input[..i + 1]) == sorted[..j] + [x] + sorted[j..] by {
      InsertPosAt(sorted, x, j);
      assert input[..i + 1][..i] == input[..i];
      assert input[i] == before[i];
    }
    ShiftedSlices(before, shifted, after, x, i, j);
    assert input[i + 1..] == input[i..][1..];
  }

  /** The array after the shift and the store, slice by slice. */
  lemma ShiftedSlices(before: seq<Entry>, shifted: seq<Entry>, after: seq<Entry>, x: Entry, i: nat, j: nat)
    requires |before| == |shifted| && j <= i < |before|
    requires forall k | 0 <= k < j :: shifted[k] == before[k]
    requires forall k | j < k <= i :: shifted[k] == before[k - 1]
    requires forall k | i < k < |before| :: shifted[k] == before[k]
    requires after == shifted[j := x]
    ensures after[..i + 1] == before[..i][..j] + [x] + before[..i][j..]
    ensures after[i + 1..] == before[i..][1..]
  {
    assert after[..j] == before[..i][..j];
    assert after[j + 1..i + 1] == before[..i][j..];
    assert after[i + 1..] == shifted[i + 1..];
  }

  /**
   * `sortByDailyValue`: the entries pushed in iteration order, then sorted.
   * The result is a permutation of the profile's entries, non-decreasing in
   * weight, and entries of equal weight keep the profile's order.
   */
  method SortByDailyValue(total: Profile) returns (ret: seq<Entry>)
    ensures ret == InsertionSorted(Entries(total))
    ensures Sorted(ret)
    ensures multiset(ret) == multiset(Entries(total))
    ensures StableFrom(ret, Entries(total))
  {
    var low: seq<Entry> := [];
    for j := 0 to |total.keys|
      invariant low == Entries(total)[..j]
    {
      var key := total.keys[j];
      low := low + [(key, total.values[key])];
    }
    var a := new Entry[|low|](i requires 0 <= i < |low| => low[i]);
    assert a[..] == Entries(total);
    SortInPlace(a);
    ret := a[..];
    InsertionSortedSorted(Entries(total));
    InsertionSortedPermutation(Entries(total));
    InsertionSortedStable(Entries(total));
  }
}
