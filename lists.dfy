/**
 * Sorting a list in place, as List.sort(cmp) and Collections.sort(list, cmp)
 * do. The lists the examples sort are fixed-size, array-backed lists
 * (Arrays.asList) or ArrayLists, so the model sorts an array. The library
 * sorts stably; this is a stable insertion sort. For a valid comparator a
 * stable sort's output is determined by its input and comparator
 * (Streams.StableSortUnique), so its result is then the one the library
 * produces.
 */
module Lists {
  import opened Comparators
  import opened Streams

  /** Sorts a in place: afterwards a holds the stable sort of its old
      contents. Elements are inserted from the right end into the sorted
      suffix, each moving right past the elements it comes after. */
  method Sort<T>(a: array<T>, cmp: Comparator<T>)
    modifies a
    ensures a[..] == SortBy(old(a[..]), cmp)
  {
    ghost var s := a[..];
    var i := a.Length;
    while i > 0
      invariant 0 <= i <= a.Length
      invariant a[..] == s[..i] + SortBy(s[i..], cmp)
    {
      i := i - 1;
      SplitAt(a[..], s, i, cmp);
      InsertIntoSortedSuffix(a, i, cmp);
      SortBySuffix(s, i, cmp);
    }
    assert s[..0] == [] && s[0..] == s;
  }

  /** Moves a[i] right into the suffix a[i + 1..], past every element it
      comes after: one step of the insertion sort. */
  method InsertIntoSortedSuffix<T>(a: array<T>, i: nat, cmp: Comparator<T>)
    requires i < a.Length
    modifies a
    ensures a[..] == old(a[..i]) + Insert(old(a[i]), old(a[i + 1..]), cmp)
  {
    ghost var pre := a[..i];
    ghost var sorted := a[i + 1..];
    var x := a[i];
    var j := i;
    ghost var k := 0;
    StartAt(a[..], i);
    while j + 1 < a.Length && cmp(x, a[j + 1]) > 0
      invariant j == i + k && k <= |sorted|
      invariant a[..] == pre + (sorted[..k] + [x] + sorted[k..])
      invariant forall m :: 0 <= m < k ==> cmp(x, sorted[m]) > 0
    {
      SwapForward(a, pre, sorted, x, j, k);
      j, k := j + 1, k + 1;
    }
    InsertedAt(a[..], pre, sorted, k, x, cmp);
  }

  /** Before the insertion loop, a[i] sits in front of the suffix. */
  lemma StartAt<T>(s: seq<T>, i: nat)
    requires i < |s|
    ensures s == s[..i] + (s[i + 1..][..0] + [s[i]] + s[i + 1..][0..])
  {
    assert s[i + 1..][..0] == [] && s[i + 1..][0..] == s[i + 1..];
    assert s == s[..i] + [s[i]] + s[i + 1..];
  }

  /** The state the insertion loop stops in is the inserted sequence. */
  lemma InsertedAt<T>(cur: seq<T>, pre: seq<T>, sorted: seq<T>, k: nat, x: T, cmp: Comparator<T>)
    requires k <= |sorted| && cur == pre + (sorted[..k] + [x] + sorted[k..])
    requires forall m :: 0 <= m < k ==> cmp(x, sorted[m]) > 0
    requires !(|pre| + k + 1 < |cur| && cmp(x, cur[|pre| + k + 1]) > 0)
    ensures cur == pre + Insert(x, sorted, cmp)
  {
    ElementsAt(cur, pre, sorted, k, x);
    InsertAfter(x, sorted, k, cmp);
  }

  /** Exchanges the inserted element x, at a[j], with its right neighbour,
      the next element of the sorted suffix. */
  method SwapForward<T>(a: array<T>, ghost pre: seq<T>, ghost sorted: seq<T>, ghost x: T, j: nat, ghost k: nat)
    requires j == |pre| + k && k < |sorted|
    requires a[..] == pre + (sorted[..k] + [x] + sorted[k..])
    modifies a
    ensures a[..] == pre + (sorted[..k + 1] + [x] + sorted[k + 1..])
    ensures old(a[j + 1]) == sorted[k]
  {
    ElementsAt(a[..], pre, sorted, k, x);
    SwapStep(a[..], pre, sorted, k, x);
    a[j], a[j + 1] := a[j + 1], a[j];
  }

  /** The state of the outer loop, element by element. */
  lemma SplitAt<T>(cur: seq<T>, s: seq<T>, i: nat, cmp: Comparator<T>)
    requires i < |s|
    requires cur == s[..i + 1] + SortBy(s[i + 1..], cmp)
    ensures cur[..i] == s[..i] && cur[i] == s[i] && cur[i + 1..] == SortBy(s[i + 1..], cmp)
  {
    assert s[..i + 1] == s[..i] + [s[i]];
  }

  /** Sorting the suffix from i inserts s[i] into the sorted suffix from i + 1. */
  lemma SortBySuffix<T>(s: seq<T>, i: nat, cmp: Comparator<T>)
    requires i < |s|
    ensures SortBy(s[i..], cmp) == Insert(s[i], SortBy(s[i + 1..], cmp), cmp)
  {
    assert s[i..][0] == s[i] && s[i..][1..] == s[i + 1..];
  }

  /** Where the inserted element and its right neighbour are. */
  lemma ElementsAt<T>(cur: seq<T>, pre: seq<T>, sorted: seq<T>, k: nat, x: T)
    requires k <= |sorted|
    requires cur == pre + (sorted[..k] + [x] + sorted[k..])
    ensures |cur| == |pre| + |sorted| + 1
    ensures cur[|pre| + k] == x
    ensures k < |sorted| ==> cur[|pre| + k + 1] == sorted[k]
  {
  }

  /** What swapping the inserted element with its right neighbour gives. */
  lemma SwapStep<T>(cur: seq<T>, pre: seq<T>, sorted: seq<T>, k: nat, x: T)
    requires k < |sorted|
    requires cur == pre + (sorted[..k] + [x] + sorted[k..])
    ensures cur[|pre| + k := sorted[k]][|pre| + k + 1 := x]
         == pre + (sorted[..k + 1] + [x] + sorted[k + 1..])
  {
    assert sorted[..k + 1] == sorted[..k] + [sorted[k]];
    assert sorted[k..] == [sorted[k]] + sorted[k + 1..];
  }

  /** The inserted element stops in front of the first element it does not
      come after, or at the end: having come after every element of
      sorted[..k], it lands at position k. */
  lemma {:induction false} InsertAfter<T>(x: T, sorted: seq<T>, k: nat, cmp: Comparator<T>)
    requires k <= |sorted|
    requires forall m :: 0 <= m < k ==> cmp(x, sorted[m]) > 0
    requires k < |sorted| ==> cmp(x, sorted[k]) <= 0
    ensures Insert(x, sorted, cmp) == sorted[..k] + [x] + sorted[k..]
  {
    if k == 0 {
      assert sorted[..0] == [] && sorted[0..] == sorted;
    } else {
      var rest := sorted[1..];
      assert forall m :: 0 <= m < k - 1 ==> rest[m] == sorted[m + 1];
      InsertAfter(x, rest, k - 1, cmp);
      assert Insert(x, sorted, cmp) == [sorted[0]] + Insert(x, rest, cmp);
      assert sorted[..k] == [sorted[0]] + rest[..k - 1];
      assert sorted[k..] == rest[k - 1..];
    }
  }
}
