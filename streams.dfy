/**
 * The sequential semantics of the java.util.stream operations the examples
 * chain together, each as a function on a finite sequence: a stream over a
 * list yields the list's elements in order, every intermediate operation
 * maps one such sequence to another, and every terminal operation maps it
 * to a value. An infinite source (Stream.iterate) always appears under a
 * limit, and is modelled by the finite prefix that the limit lets through.
 */
module Streams {
  import opened Functions
  import opened Comparators

  /** java.util.Optional */
  datatype Option<T> = None | Some(value: T)

  /** Optional.orElse(other) */
  function OrElse<T>(o: Option<T>, other: T): T
  {
    match o
    case Some(v) => v
    case None => other
  }

  /** r keeps some of the elements of s, in their order in s. */
  predicate IsSubsequence<T(==)>(r: seq<T>, s: seq<T>)
  {
    if r == [] then true
    else if s == [] then false
    else if r[0] == s[0] then IsSubsequence(r[1..], s[1..])
    else IsSubsequence(r, s[1..])
  }

  predicate NoDuplicates<T(==)>(s: seq<T>)
  {
    forall i, j :: 0 <= i < j < |s| ==> s[i] != s[j]
  }

  // ---------------------------------------------------------------------
  // filter

  /** stream.filter(p) */
  function Filter<T>(s: seq<T>, p: T -> bool): (r: seq<T>)
    ensures |r| <= |s|
  {
    if s == [] then [] else (if p(s[0]) then [s[0]] else []) + Filter(s[1..], p)
  }

  /** filter(p) keeps exactly the elements that satisfy p. */
  lemma {:induction false} FilterMembers<T>(s: seq<T>, p: T -> bool)
    ensures forall x :: x in Filter(s, p) <==> x in s && p(x)
  {
    if s != [] {
      FilterMembers(s[1..], p);
      assert s == [s[0]] + s[1..];
    }
  }

  lemma {:induction false} FilterConcat<T>(a: seq<T>, b: seq<T>, p: T -> bool)
    ensures Filter(a + b, p) == Filter(a, p) + Filter(b, p)
  {
    if a != [] {
      assert (a + b)[0] == a[0] && (a + b)[1..] == a[1..] + b;
      assert Filter(a + b, p) == (if p(a[0]) then [a[0]] else []) + Filter(a[1..] + b, p);
      FilterConcat(a[1..], b, p);
    } else {
      assert a + b == b;
    }
  }

  /** The step a loop that appends matching elements one by one takes. */
  lemma FilterSnoc<T>(s: seq<T>, x: T, p: T -> bool)
    ensures Filter(s + [x], p) == Filter(s, p) + (if p(x) then [x] else [])
  {
    FilterConcat(s, [x], p);
  }

  /** filter keeps the order of the elements it keeps. */
  lemma {:induction false} FilterIsSubsequence<T>(s: seq<T>, p: T -> bool)
    ensures IsSubsequence(Filter(s, p), s)
  {
    if s != [] {
      FilterIsSubsequence(s[1..], p);
      if p(s[0]) {
        assert Filter(s, p) == [s[0]] + Filter(s[1..], p);
      } else {
        assert Filter(s, p) == Filter(s[1..], p);
        SubsequenceOfTail(Filter(s[1..], p), s);
      }
    }
  }

  lemma {:induction false} SubsequenceOfTail<T>(r: seq<T>, s: seq<T>)
    requires s != [] && IsSubsequence(r, s[1..])
    ensures IsSubsequence(r, s)
  {
    if r != [] && r[0] == s[0] {
      // greedy matching may take s[0] instead of the element matched in s[1..]
      SubsequenceDropHead(r, s[1..]);
    }
  }

  lemma {:induction false} SubsequenceDropHead<T>(r: seq<T>, s: seq<T>)
    requires r != [] && IsSubsequence(r, s)
    ensures IsSubsequence(r[1..], s)
  {
    if s != [] {
      if r[0] == s[0] {
        if r[1..] != [] {
          SubsequenceOfTail(r[1..], s);
        }
      } else {
        SubsequenceDropHead(r, s[1..]);
        if r[1..] != [] {
          SubsequenceOfTail(r[1..], s);
        }
      }
    }
  }

  /** Every matching element is kept as often as it occurs; no other is kept. */
  lemma {:induction false} FilterMultiplicity<T>(s: seq<T>, p: T -> bool, x: T)
    ensures multiset(Filter(s, p))[x] == if p(x) then multiset(s)[x] else 0
  {
    if s != [] {
      FilterMultiplicity(s[1..], p, x);
      assert s == [s[0]] + s[1..];
    }
  }

  /** Filtering by p and by p.negate() splits s: each element lands in
      exactly one of the two results. */
  lemma {:induction false} FilterPartition<T(!new)>(s: seq<T>, p: T -> bool)
    ensures multiset(Filter(s, p)) + multiset(Filter(s, Negate(p))) == multiset(s)
    ensures |Filter(s, p)| + |Filter(s, Negate(p))| == |s|
  {
    if s != [] {
      FilterPartition(s[1..], p);
      assert s == [s[0]] + s[1..];
    }
  }

  /** filter(p.and(q)) is filter(p) followed by filter(q). */
  lemma {:induction false} FilterAnd<T(!new)>(s: seq<T>, p: T -> bool, q: T -> bool)
    ensures Filter(s, And(p, q)) == Filter(Filter(s, p), q)
  {
    if s != [] {
      FilterAnd(s[1..], p, q);
      FilterConcat(if p(s[0]) then [s[0]] else [], Filter(s[1..], p), q);
    }
  }

  /** Two predicates that agree on every element filter alike. */
  lemma {:induction false} FilterExtensional<T>(s: seq<T>, p: T -> bool, q: T -> bool)
    requires forall x :: p(x) == q(x)
    ensures Filter(s, p) == Filter(s, q)
  {
    if s != [] {
      FilterExtensional(s[1..], p, q);
    }
  }

  // ---------------------------------------------------------------------
  // map, flatMap

  /** stream.map(f) */
  function Map<T, R>(s: seq<T>, f: T -> R): (r: seq<R>)
    ensures |r| == |s|
    ensures forall i :: 0 <= i < |s| ==> r[i] == f(s[i])
  {
    if s == [] then [] else [f(s[0])] + Map(s[1..], f)
  }

  lemma MapSnoc<T, R>(s: seq<T>, x: T, f: T -> R)
    ensures Map(s + [x], f) == Map(s, f) + [f(x)]
  {
  }

  lemma MapConcat<T, R>(a: seq<T>, b: seq<T>, f: T -> R)
    ensures Map(a + b, f) == Map(a, f) + Map(b, f)
  {
  }

  /** map(f).map(g) is map(f.andThen(g)). */
  lemma MapFusion<A(!new), B, C>(s: seq<A>, f: A -> B, g: B -> C)
    ensures Map(Map(s, f), g) == Map(s, AndThen(f, g))
  {
  }

  /** Mapping and then filtering on the image is filtering on the source
      and then mapping. */
  lemma {:induction false} FilterMap<T(!new), R>(s: seq<T>, f: T -> R, p: R -> bool)
    ensures Filter(Map(s, f), p) == Map(Filter(s, AndThen(f, p)), f)
  {
    if s != [] {
      FilterMap(s[1..], f, p);
      assert Map(s, f)[1..] == Map(s[1..], f);
    }
  }

  /** stream.flatMap(f): the sub-streams, concatenated in order. */
  function FlatMap<T, R>(s: seq<T>, f: T -> seq<R>): (r: seq<R>)
    ensures forall i :: 0 <= i < |s| ==> forall y :: y in f(s[i]) ==> y in r
    ensures forall y :: y in r ==> exists i :: 0 <= i < |s| && y in f(s[i])
  {
    if s == [] then []
    else
      var r := f(s[0]) + FlatMap(s[1..], f);
      assert forall i :: 1 <= i < |s| ==> s[i] == s[1..][i - 1];
      r
  }

  /** The step a loop `result.addAll(f(x))` takes. */
  lemma {:induction false} FlatMapSnoc<T, R>(s: seq<T>, x: T, f: T -> seq<R>)
    ensures FlatMap(s + [x], f) == FlatMap(s, f) + f(x)
  {
    if s == [] {
      assert s + [x] == [x];
    } else {
      assert (s + [x])[0] == s[0] && (s + [x])[1..] == s[1..] + [x];
      FlatMapSnoc(s[1..], x, f);
    }
  }

  /** Filtering a flattened stream is flattening the filtered sub-streams:
      g gives, for each element, its sub-stream filtered. */
  lemma {:induction false} FilterFlatMap<T, R>(s: seq<T>, f: T -> seq<R>, p: R -> bool, g: T -> seq<R>)
    requires forall x :: x in s ==> g(x) == Filter(f(x), p)
    ensures Filter(FlatMap(s, f), p) == FlatMap(s, g)
  {
    if s != [] {
      assert s[0] in s;
      assert forall x :: x in s[1..] ==> x in s;
      FilterConcat(f(s[0]), FlatMap(s[1..], f), p);
      FilterFlatMap(s[1..], f, p, g);
    }
  }

  // ---------------------------------------------------------------------
  // distinct

  /** stream.distinct(): pulls upstream elements in order and passes on
      those not yet in the set of elements already passed on. */
  function DistinctFrom<T(==)>(s: seq<T>, seen: set<T>): (r: seq<T>)
    ensures forall x :: x in r ==> x in s
  {
    if s == [] then []
    else if s[0] in seen then DistinctFrom(s[1..], seen)
    else [s[0]] + DistinctFrom(s[1..], seen + {s[0]})
  }

  function Distinct<T(==)>(s: seq<T>): seq<T>
  {
    DistinctFrom(s, {})
  }

  /** One step of distinct(): the next element is passed on when it has not
      been seen, and is then seen. */
  lemma DistinctFromCons<T>(x: T, s: seq<T>, seen: set<T>, seenAfter: set<T>)
    requires seenAfter == seen + {x}
    ensures DistinctFrom([x] + s, seen)
         == if x in seen then DistinctFrom(s, seen) else [x] + DistinctFrom(s, seenAfter)
  {
    assert ([x] + s)[1..] == s;
  }

  /** distinct() passes on each element not seen before, exactly once. */
  lemma {:induction false} DistinctFromMembers<T>(s: seq<T>, seen: set<T>)
    ensures forall x :: x in DistinctFrom(s, seen) ==> x in s && x !in seen
    ensures forall x :: x in s && x !in seen ==> x in DistinctFrom(s, seen)
    ensures NoDuplicates(DistinctFrom(s, seen))
  {
    if s != [] {
      assert s == [s[0]] + s[1..];
      if s[0] in seen {
        DistinctFromMembers(s[1..], seen);
      } else {
        DistinctFromMembers(s[1..], seen + {s[0]});
      }
    }
  }
  /** collect(toSet()): the elements, without order or repetition. */
  function ToSet<T>(s: seq<T>): set<T>
  {
    set x | x in s
  }

  /** distinct() loses no element and adds none: collecting the distinct
      elements into a set gives the set of all of them. */
  lemma DistinctToSet<T>(s: seq<T>)
    ensures ToSet(Distinct(s)) == ToSet(s)
  {
    DistinctKeepsFirstOccurrences(s);
  }


  /** distinct() over a concatenation handles the second part knowing the
      elements of the first. */
  lemma {:induction false} DistinctFromConcat<T>(a: seq<T>, b: seq<T>, seen: set<T>)
    ensures DistinctFrom(a + b, seen) == DistinctFrom(a, seen) + DistinctFrom(b, seen + ToSet(a))
  {
    if a == [] {
      assert a + b == b && seen + ToSet(a) == seen;
    } else {
      assert (a + b)[0] == a[0] && (a + b)[1..] == a[1..] + b;
      if a[0] in seen {
        DistinctFromConcat(a[1..], b, seen);
        assert seen + ToSet(a) == seen + ToSet(a[1..]);
      } else {
        DistinctFromConcat(a[1..], b, seen + {a[0]});
        assert seen + {a[0]} + ToSet(a[1..]) == seen + ToSet(a);
      }
    }
  }

  /** The position of the first occurrence of x in s. */
  function IndexOf<T(==)>(s: seq<T>, x: T): (k: nat)
    requires x in s
    ensures k < |s| && s[k] == x && x !in s[..k]
  {
    if s[0] == x then 0 else 1 + IndexOf(s[1..], x)
  }

  /** distinct() keeps first occurrences: its output lists each element of
      s once, in the order of the element's first occurrence in s. */
  lemma DistinctKeepsFirstOccurrences<T>(s: seq<T>)
    ensures NoDuplicates(Distinct(s))
    ensures forall x :: x in Distinct(s) ==> x in s
    ensures forall x :: x in s ==> x in Distinct(s)
    ensures forall i, j :: 0 <= i < j < |Distinct(s)| ==>
      IndexOf(s, Distinct(s)[i]) < IndexOf(s, Distinct(s)[j])
  {
    DistinctFromMembers(s, {});
    DistinctFromOrder(s, {});
  }

  lemma {:induction false} DistinctFromOrder<T>(s: seq<T>, seen: set<T>)
    ensures forall i, j :: 0 <= i < j < |DistinctFrom(s, seen)| ==>
      IndexOf(s, DistinctFrom(s, seen)[i]) < IndexOf(s, DistinctFrom(s, seen)[j])
  {
    if s != [] {
      var r := DistinctFrom(s, seen);
      DistinctFromMembers(s[1..], seen);
      DistinctFromMembers(s[1..], seen + {s[0]});
      if s[0] in seen {
        DistinctFromOrder(s[1..], seen);
        forall y | y in r ensures IndexOf(s, y) == 1 + IndexOf(s[1..], y) {
        }
      } else {
        var r' := DistinctFrom(s[1..], seen + {s[0]});
        DistinctFromOrder(s[1..], seen + {s[0]});
        assert r == [s[0]] + r';
        forall y | y in r' ensures IndexOf(s, y) == 1 + IndexOf(s[1..], y) {
        }
        forall i, j | 0 <= i < j < |r| ensures IndexOf(s, r[i]) < IndexOf(s, r[j]) {
          assert r[j] == r'[j - 1];
          if i > 0 {
            assert r[i] == r'[i - 1];
          }
        }
      }
    }
  }

  // ---------------------------------------------------------------------
  // limit, skip

  /** stream.limit(n): at most the first n elements. */
  function Limit<T>(s: seq<T>, n: nat): (r: seq<T>)
    ensures |r| <= n && |r| <= |s|
    ensures |r| == n || |r| == |s|
    ensures forall i :: 0 <= i < |r| ==> r[i] == s[i]
  {
    if n <= |s| then s[..n] else s
  }

  /** stream.skip(n): everything after the first n elements. */
  function Skip<T>(s: seq<T>, n: nat): (r: seq<T>)
    ensures Limit(s, n) + r == s
  {
    if n <= |s| then s[n..] else []
  }

  // ---------------------------------------------------------------------
  // sorted

  ghost predicate IsSortedBy<T>(s: seq<T>, cmp: Comparator<T>)
  {
    forall i, j :: 0 <= i < j < |s| ==> cmp(s[i], s[j]) <= 0
  }

  /** Insert x into r in front of the first element it does not come after. */
  function Insert<T>(x: T, r: seq<T>, cmp: Comparator<T>): (q: seq<T>)
    ensures |q| == |r| + 1
  {
    if r == [] then [x]
    else if cmp(x, r[0]) <= 0 then [x] + r
    else [r[0]] + Insert(x, r[1..], cmp)
  }

  /** stream.sorted(cmp) and List.sort(cmp): a stable sort, by insertion. */
  function SortBy<T>(s: seq<T>, cmp: Comparator<T>): (r: seq<T>)
    ensures |r| == |s|
  {
    if s == [] then [] else Insert(s[0], SortBy(s[1..], cmp), cmp)
  }

  lemma {:induction false} InsertPermutation<T>(x: T, r: seq<T>, cmp: Comparator<T>)
    ensures multiset(Insert(x, r, cmp)) == multiset(r) + multiset{x}
  {
    if r == [] {
      assert Insert(x, r, cmp) == [x];
    } else if cmp(x, r[0]) <= 0 {
      assert Insert(x, r, cmp) == [x] + r;
    } else {
      var t := Insert(x, r[1..], cmp);
      InsertPermutation(x, r[1..], cmp);
      assert Insert(x, r, cmp) == [r[0]] + t;
      assert r == [r[0]] + r[1..];
      assert multiset(r) == multiset{r[0]} + multiset(r[1..]);
    }
  }

  /** One step of sorted(): the first element is inserted into the sorted rest. */
  lemma SortByCons<T>(x: T, s: seq<T>, cmp: Comparator<T>)
    ensures SortBy([x] + s, cmp) == Insert(x, SortBy(s, cmp), cmp)
  {
    assert ([x] + s)[1..] == s;
  }

  /** One step of an insertion: x goes before y unless it comes after y. */
  lemma InsertCons<T>(x: T, y: T, r: seq<T>, cmp: Comparator<T>)
    ensures Insert(x, [y] + r, cmp) == if cmp(x, y) <= 0 then [x] + ([y] + r) else [y] + Insert(x, r, cmp)
  {
    assert ([y] + r)[1..] == r;
  }

  /** Sequences that are permutations of each other hold the same elements. */
  lemma SameElements<T>(a: seq<T>, b: seq<T>)
    requires multiset(a) == multiset(b)
    ensures forall x :: x in a <==> x in b
  {
    assert forall x :: x in a <==> x in multiset(a);
    assert forall x :: x in b <==> x in multiset(b);
  }

  /** sorted(cmp) is a permutation of its input. */
  lemma {:induction false} SortByPermutation<T>(s: seq<T>, cmp: Comparator<T>)
    ensures multiset(SortBy(s, cmp)) == multiset(s)
  {
    if s != [] {
      SortByPermutation(s[1..], cmp);
      InsertPermutation(s[0], SortBy(s[1..], cmp), cmp);
      assert s == [s[0]] + s[1..];
    }
  }

  lemma {:induction false} InsertSorted<T(!new)>(x: T, r: seq<T>, cmp: Comparator<T>)
    requires Valid(cmp) && IsSortedBy(r, cmp)
    ensures IsSortedBy(Insert(x, r, cmp), cmp)
  {
    if r == [] {
    } else if cmp(x, r[0]) <= 0 {
      PrependSorted(x, r, cmp);
    } else {
      InsertSorted(x, r[1..], cmp);
      var t := Insert(x, r[1..], cmp);
      InsertPermutation(x, r[1..], cmp);
      forall k | 0 <= k < |t| ensures cmp(r[0], t[k]) <= 0 {
        assert t[k] in multiset(t);
        if t[k] != x {
          assert t[k] in r[1..];
          var m :| 0 <= m < |r[1..]| && r[1..][m] == t[k];
          assert r[m + 1] == t[k];
        }
      }
      PrependSorted(r[0], t, cmp);
    }
  }

  /** A sorted sequence stays sorted when an element that comes no later
      than its head is put in front. */
  lemma PrependSorted<T(!new)>(x: T, r: seq<T>, cmp: Comparator<T>)
    requires Valid(cmp) && IsSortedBy(r, cmp)
    requires r != [] ==> cmp(x, r[0]) <= 0
    ensures IsSortedBy([x] + r, cmp)
  {
    var q := [x] + r;
    forall i, j | 0 <= i < j < |q| ensures cmp(q[i], q[j]) <= 0 {
      assert q[j] == r[j - 1];
      if i > 0 {
        assert q[i] == r[i - 1];
      } else if j > 1 {
        assert cmp(r[0], r[j - 1]) <= 0;
      }
    }
  }

  /** sorted(cmp) orders the stream by cmp. */
  lemma {:induction false} SortBySorted<T(!new)>(s: seq<T>, cmp: Comparator<T>)
    requires Valid(cmp)
    ensures IsSortedBy(SortBy(s, cmp), cmp)
  {
    if s != [] {
      SortBySorted(s[1..], cmp);
      InsertSorted(s[0], SortBy(s[1..], cmp), cmp);
    }
  }

  /** The elements cmp cannot tell apart from y. */
  function TiesWith<T(!new)>(cmp: Comparator<T>, y: T): (p: T -> bool)
    ensures forall x :: p(x) <==> cmp(x, y) == 0
  {
    x => cmp(x, y) == 0
  }

  lemma {:induction false} InsertStable<T(!new)>(x: T, r: seq<T>, cmp: Comparator<T>, y: T)
    requires Valid(cmp)
    ensures Filter(Insert(x, r, cmp), TiesWith(cmp, y))
         == (if cmp(x, y) == 0 then [x] else []) + Filter(r, TiesWith(cmp, y))
  {
    var p := TiesWith(cmp, y);
    if r == [] {
      FilterCons(x, [], p);
      assert [x] + [] == [x];
    } else if cmp(x, r[0]) <= 0 {
      FilterCons(x, r, p);
    } else {
      var t := Insert(x, r[1..], cmp);
      InsertStable(x, r[1..], cmp, y);
      FilterCons(r[0], t, p);
      FilterCons(r[0], r[1..], p);
      assert r == [r[0]] + r[1..];
      NotBothTie(x, r[0], y, cmp);
    }
  }

  /** The filter of a sequence that starts with a. */
  lemma FilterCons<T>(a: T, r: seq<T>, p: T -> bool)
    ensures Filter([a] + r, p) == (if p(a) then [a] else []) + Filter(r, p)
  {
    assert ([a] + r)[1..] == r;
  }

  /** Under a valid comparator, two elements that do not tie cannot both
      tie with a third. */
  lemma NotBothTie<T(!new)>(a: T, b: T, y: T, cmp: Comparator<T>)
    requires Valid(cmp) && cmp(a, b) != 0
    ensures !(cmp(a, y) == 0 && cmp(b, y) == 0)
  {
  }

  /** sorted(cmp) is stable: the elements that tie under cmp keep their
      relative order. */
  lemma {:induction false} SortByStable<T(!new)>(s: seq<T>, cmp: Comparator<T>, y: T)
    requires Valid(cmp)
    ensures Filter(SortBy(s, cmp), TiesWith(cmp, y)) == Filter(s, TiesWith(cmp, y))
  {
    if s != [] {
      SortByStable(s[1..], cmp, y);
      InsertStable(s[0], SortBy(s[1..], cmp), cmp, y);
    }
  }

  /** The first elements of two sorted permutations of each other tie. */
  lemma SortedHeadsTie<T(!new)>(t: seq<T>, r: seq<T>, cmp: Comparator<T>)
    requires Valid(cmp) && IsSortedBy(t, cmp) && IsSortedBy(r, cmp)
    requires multiset(t) == multiset(r) && t != []
    ensures r != [] && cmp(t[0], r[0]) == 0 && cmp(r[0], t[0]) == 0
  {
    assert t[0] in multiset(r);
    var x, z := t[0], r[0];
    assert z in multiset(t);
    assert cmp(x, x) <= 0 <==> cmp(x, x) >= 0;
    assert cmp(z, z) <= 0 <==> cmp(z, z) >= 0;
    assert cmp(x, z) <= 0 && cmp(z, x) <= 0;
  }

  /** Removing the same first element from two sequences keeps every class
      of ties the same. */
  lemma TiesOfTails<T(!new)>(t: seq<T>, r: seq<T>, cmp: Comparator<T>)
    requires t != [] && r != [] && t[0] == r[0]
    requires forall y :: Filter(t, TiesWith(cmp, y)) == Filter(r, TiesWith(cmp, y))
    ensures forall y :: Filter(t[1..], TiesWith(cmp, y)) == Filter(r[1..], TiesWith(cmp, y))
  {
    forall y ensures Filter(t[1..], TiesWith(cmp, y)) == Filter(r[1..], TiesWith(cmp, y)) {
      var p := TiesWith(cmp, y);
      var h := if p(t[0]) then [t[0]] else [];
      assert Filter(t, p) == h + Filter(t[1..], p);
      assert Filter(r, p) == h + Filter(r[1..], p);
      assert Filter(t[1..], p) == (h + Filter(t[1..], p))[|h|..];
      assert Filter(r[1..], p) == (h + Filter(r[1..], p))[|h|..];
    }
  }

  /** Removing the same first element from two permutations of each other
      leaves permutations of each other. */
  lemma MultisetOfTails<T>(t: seq<T>, r: seq<T>)
    requires t != [] && r != [] && t[0] == r[0] && multiset(t) == multiset(r)
    ensures multiset(t[1..]) == multiset(r[1..])
  {
    assert t == [t[0]] + t[1..] && r == [r[0]] + r[1..];
    assert multiset(t) == multiset{t[0]} + multiset(t[1..]);
    assert multiset(r) == multiset{t[0]} + multiset(r[1..]);
    assert multiset(t[1..]) == multiset(t) - multiset{t[0]};
    assert multiset(r[1..]) == multiset(r) - multiset{t[0]};
  }

  /** Two sorted permutations of each other whose classes of ties agree
      start with the same element. */
  lemma SortedHeadsEqual<T(!new)>(t: seq<T>, r: seq<T>, cmp: Comparator<T>)
    requires Valid(cmp) && IsSortedBy(t, cmp) && IsSortedBy(r, cmp)
    requires multiset(t) == multiset(r) && t != []
    requires forall y :: Filter(t, TiesWith(cmp, y)) == Filter(r, TiesWith(cmp, y))
    ensures r != [] && t[0] == r[0]
  {
    SortedHeadsTie(t, r, cmp);
    var p := TiesWith(cmp, t[0]);
    assert Filter(t, p)[0] == t[0];
    assert Filter(r, p)[0] == r[0];
  }

  /** A sorted sequence stays sorted without its first element. */
  lemma SortedTail<T>(s: seq<T>, cmp: Comparator<T>)
    requires IsSortedBy(s, cmp) && s != []
    ensures IsSortedBy(s[1..], cmp)
  {
    forall i, j | 0 <= i < j < |s| - 1 ensures cmp(s[1..][i], s[1..][j]) <= 0 {
      assert s[1..][i] == s[i + 1] && s[1..][j] == s[j + 1];
    }
  }

  /** Two sequences sorted by a valid comparator that hold the same elements,
      with every class of ties in the same order, are equal. */
  lemma {:induction false} SortedTiesUnique<T(!new)>(t: seq<T>, r: seq<T>, cmp: Comparator<T>)
    requires Valid(cmp) && IsSortedBy(t, cmp) && IsSortedBy(r, cmp)
    requires multiset(t) == multiset(r)
    requires forall y :: Filter(t, TiesWith(cmp, y)) == Filter(r, TiesWith(cmp, y))
    ensures t == r
  {
    if t == [] {
      assert |multiset(r)| == 0;
    } else {
      SortedHeadsEqual(t, r, cmp);
      TiesOfTails(t, r, cmp);
      MultisetOfTails(t, r);
      SortedTail(t, cmp);
      SortedTail(r, cmp);
      SortedTiesUnique(t[1..], r[1..], cmp);
      assert t == [t[0]] + t[1..] && r == [r[0]] + r[1..];
    }
  }

  /** For a valid comparator, a stable sort has exactly one possible result:
      any permutation of s that is sorted by cmp and keeps every class of
      ties in its input order is SortBy(s, cmp). */
  lemma StableSortUnique<T(!new)>(s: seq<T>, t: seq<T>, cmp: Comparator<T>)
    requires Valid(cmp) && IsSortedBy(t, cmp) && multiset(t) == multiset(s)
    requires forall y :: Filter(t, TiesWith(cmp, y)) == Filter(s, TiesWith(cmp, y))
    ensures t == SortBy(s, cmp)
  {
    SortBySorted(s, cmp);
    SortByPermutation(s, cmp);
    forall y ensures Filter(SortBy(s, cmp), TiesWith(cmp, y)) == Filter(s, TiesWith(cmp, y)) {
      SortByStable(s, cmp, y);
    }
    SortedTiesUnique(t, SortBy(s, cmp), cmp);
  }

  /** Sorting a sequence each of whose elements comes no later than the next
      leaves it as it is, whatever the comparator. */
  lemma {:induction false} SortByOrdered<T>(s: seq<T>, cmp: Comparator<T>)
    requires forall i :: 0 <= i < |s| - 1 ==> cmp(s[i], s[i + 1]) <= 0
    ensures SortBy(s, cmp) == s
  {
    if s != [] {
      SortByOrdered(s[1..], cmp);
      assert s == [s[0]] + s[1..];
    }
  }

  /** Two comparators that agree on which of two elements comes no later
      sort alike, provided they agree on all the elements being sorted. */
  lemma {:induction false} SortBySameSigns<T>(s: seq<T>, cmp1: Comparator<T>, cmp2: Comparator<T>, ok: T -> bool)
    requires forall x :: x in s ==> ok(x)
    requires forall a, b :: ok(a) && ok(b) ==> (cmp1(a, b) <= 0 <==> cmp2(a, b) <= 0)
    ensures SortBy(s, cmp1) == SortBy(s, cmp2)
  {
    if s != [] {
      assert forall x :: x in s[1..] ==> x in s;
      SortBySameSigns(s[1..], cmp1, cmp2, ok);
      var r := SortBy(s[1..], cmp1);
      SortByPermutation(s[1..], cmp1);
      assert forall x :: x in r ==> x in multiset(r);
      InsertSameSigns(s[0], r, cmp1, cmp2, ok);
    }
  }

  lemma {:induction false} InsertSameSigns<T>(x: T, r: seq<T>, cmp1: Comparator<T>, cmp2: Comparator<T>, ok: T -> bool)
    requires ok(x) && forall y :: y in r ==> ok(y)
    requires forall a, b :: ok(a) && ok(b) ==> (cmp1(a, b) <= 0 <==> cmp2(a, b) <= 0)
    ensures Insert(x, r, cmp1) == Insert(x, r, cmp2)
  {
    if r != [] {
      assert r[0] in r;
      assert forall y :: y in r[1..] ==> y in r;
      InsertSameSigns(x, r[1..], cmp1, cmp2, ok);
    }
  }

  /** Sorting twice by the same valid comparator is sorting once. */
  lemma SortByIdempotent<T(!new)>(s: seq<T>, cmp: Comparator<T>)
    requires Valid(cmp)
    ensures SortBy(SortBy(s, cmp), cmp) == SortBy(s, cmp)
  {
    SortBySorted(s, cmp);
    SortByOrdered(SortBy(s, cmp), cmp);
  }

  // ---------------------------------------------------------------------
  // reduce, count

  /** stream.reduce(identity, op): a left fold, op(...op(op(identity, s0), s1)..., sn). */
  function Reduce<T>(s: seq<T>, identity: T, op: (T, T) -> T): T
  {
    if s == [] then identity else Reduce(s[1..], op(identity, s[0]), op)
  }

  /** The step a loop `acc = op(acc, x)` takes. */
  lemma {:induction false} ReduceSnoc<T>(s: seq<T>, x: T, identity: T, op: (T, T) -> T)
    ensures Reduce(s + [x], identity, op) == op(Reduce(s, identity, op), x)
  {
    if s != [] {
      assert (s + [x])[1..] == s[1..] + [x];
      ReduceSnoc(s[1..], x, op(identity, s[0]), op);
    }
  }

  /** stream.reduce(op): empty on an empty stream, otherwise the fold that
      starts from the first element. */
  function ReduceOptional<T>(s: seq<T>, op: (T, T) -> T): (r: Option<T>)
    ensures r.None? <==> s == []
  {
    if s == [] then None else Some(Reduce(s[1..], s[0], op))
  }

  /** With an identity element, reduce(op) and reduce(identity, op) agree on
      a non-empty stream. */
  lemma ReduceOptionalWithIdentity<T>(s: seq<T>, identity: T, op: (T, T) -> T)
    requires forall x :: op(identity, x) == x
    requires s != []
    ensures ReduceOptional(s, op) == Some(Reduce(s, identity, op))
  {
  }

  /** The same elements combined from the right: op(s0, op(s1, ... op(sn, identity))). */
  function FoldRight<T>(s: seq<T>, identity: T, op: (T, T) -> T): T
  {
    if s == [] then identity else op(s[0], FoldRight(s[1..], identity, op))
  }

  /** For an associative op with an identity, reduce may group the elements
      as it likes: the left fold from acc is acc combined with the right
      fold. This is what lets a parallel stream split the work. */
  lemma {:induction false} ReduceAssociative<T>(s: seq<T>, acc: T, identity: T, op: (T, T) -> T)
    requires forall a, b, c :: op(op(a, b), c) == op(a, op(b, c))
    requires forall x :: op(x, identity) == x
    ensures Reduce(s, acc, op) == op(acc, FoldRight(s, identity, op))
  {
    if s != [] {
      ReduceAssociative(s[1..], op(acc, s[0]), identity, op);
    }
  }

  /** Integer::sum, Integer::max, Integer::min and the product lambda. */
  function Add(a: int, b: int): int { a + b }
  function Mul(a: int, b: int): int { a * b }
  function Max(a: int, b: int): int { if a >= b then a else b }
  function Min(a: int, b: int): int { if a <= b then a else b }

  lemma {:induction false} ReduceMaxAcc(s: seq<int>, acc: int)
    ensures var m := Reduce(s, acc, Max);
      (m == acc || m in s) && m >= acc && forall x :: x in s ==> x <= m
  {
    if s != [] {
      ReduceMaxAcc(s[1..], Max(acc, s[0]));
      assert s == [s[0]] + s[1..];
    }
  }

  lemma {:induction false} ReduceMinAcc(s: seq<int>, acc: int)
    ensures var m := Reduce(s, acc, Min);
      (m == acc || m in s) && m <= acc && forall x :: x in s ==> m <= x
  {
    if s != [] {
      ReduceMinAcc(s[1..], Min(acc, s[0]));
      assert s == [s[0]] + s[1..];
    }
  }

  /** reduce(Integer::max) is the largest element, reduce(Integer::min) the
      smallest; both are empty on an empty stream. */
  lemma ReduceMaxMin(s: seq<int>)
    ensures ReduceOptional(s, Max).Some? <==> s != []
    ensures s != [] ==> var m := ReduceOptional(s, Max).value;
      m in s && forall x :: x in s ==> x <= m
    ensures s != [] ==> var m := ReduceOptional(s, Min).value;
      m in s && forall x :: x in s ==> m <= x
  {
    if s != [] {
      assert s == [s[0]] + s[1..];
      ReduceMaxAcc(s[1..], s[0]);
      ReduceMinAcc(s[1..], s[0]);
    }
  }

  /** stream.count() */
  function Count<T>(s: seq<T>): nat
  {
    |s|
  }

  lemma {:induction false} MapOneSumAcc<T>(s: seq<T>, acc: int)
    ensures Reduce(Map(s, (_: T) => 1), acc, Add) == acc + |s|
  {
    if s != [] {
      assert Map(s, (_: T) => 1)[1..] == Map(s[1..], (_: T) => 1);
      MapOneSumAcc(s[1..], acc + 1);
    }
  }

  /** map(d -> 1).reduce(0, Integer::sum) counts the elements. */
  lemma MapOneSumIsCount<T>(s: seq<T>)
    ensures Reduce(Map(s, (_: T) => 1), 0, Add) == Count(s)
  {
    MapOneSumAcc(s, 0);
  }
  /** Collectors.joining(): the strings concatenated in order. */
  function Join(s: seq<string>): string
  {
    if s == [] then "" else s[0] + Join(s[1..])
  }

  /** (a, b) -> a + b */
  function Concat(a: string, b: string): string { a + b }

  /** reduce(prefix, (a, b) -> a + b) appends the strings to the prefix in
      order, so reduce("", ...) builds what joining() builds. */
  lemma {:induction false} ReduceConcatIsJoin(s: seq<string>, prefix: string)
    ensures Reduce(s, prefix, Concat) == prefix + Join(s)
  {
    if s != [] {
      ReduceConcatIsJoin(s[1..], prefix + s[0]);
      assert prefix + s[0] + Join(s[1..]) == prefix + (s[0] + Join(s[1..]));
    }
  }


  // ---------------------------------------------------------------------
  // matching and finding

  /** stream.anyMatch(p) */
  function AnyMatch<T>(s: seq<T>, p: T -> bool): (b: bool)
    ensures b <==> exists i :: 0 <= i < |s| && p(s[i])
  {
    if s == [] then false
    else
      assert forall i :: 1 <= i < |s| ==> s[i] == s[1..][i - 1];
      p(s[0]) || AnyMatch(s[1..], p)
  }

  /** stream.allMatch(p): true on an empty stream. */
  function AllMatch<T>(s: seq<T>, p: T -> bool): (b: bool)
    ensures b <==> forall i :: 0 <= i < |s| ==> p(s[i])
  {
    if s == [] then true
    else
      assert forall i :: 1 <= i < |s| ==> s[i] == s[1..][i - 1];
      p(s[0]) && AllMatch(s[1..], p)
  }

  /** stream.noneMatch(p): true on an empty stream. */
  function NoneMatch<T>(s: seq<T>, p: T -> bool): (b: bool)
    ensures b <==> forall i :: 0 <= i < |s| ==> !p(s[i])
  {
    if s == [] then true
    else
      assert forall i :: 1 <= i < |s| ==> s[i] == s[1..][i - 1];
      !p(s[0]) && NoneMatch(s[1..], p)
  }

  /** stream.findFirst(). findAny() is modelled by it as well: on a sequential
      stream it returns the first match. */
  function FindFirst<T>(s: seq<T>): Option<T>
  {
    if s == [] then None else Some(s[0])
  }

  /** filter(p).findFirst() is the first element satisfying p, if any. */
  lemma {:induction false} FindFirstOfFilter<T>(s: seq<T>, p: T -> bool)
    ensures FindFirst(Filter(s, p)).None? <==> forall i :: 0 <= i < |s| ==> !p(s[i])
    ensures FindFirst(Filter(s, p)).Some? ==>
      exists i :: 0 <= i < |s| && s[i] == FindFirst(Filter(s, p)).value && p(s[i])
        && forall k :: 0 <= k < i ==> !p(s[k])
  {
    if s != [] {
      FindFirstOfFilter(s[1..], p);
      assert forall i :: 1 <= i < |s| ==> s[i] == s[1..][i - 1];
      if !p(s[0]) && FindFirst(Filter(s, p)).Some? {
        var i :| 0 <= i < |s[1..]| && s[1..][i] == FindFirst(Filter(s[1..], p)).value && p(s[1..][i])
          && forall k :: 0 <= k < i ==> !p(s[1..][k]);
        assert s[i + 1] == s[1..][i];
      }
    }
  }

  /** anyMatch(p) holds exactly when filter(p).findAny() is present. */
  lemma AnyMatchFindFirst<T>(s: seq<T>, p: T -> bool)
    ensures AnyMatch(s, p) <==> FindFirst(Filter(s, p)).Some?
  {
    FindFirstOfFilter(s, p);
  }

  // ---------------------------------------------------------------------
  // sources

  /** f applied k times to x. */
  function ApplyN<T>(f: T -> T, x: T, k: nat): T
  {
    if k == 0 then x else ApplyN(f, f(x), k - 1)
  }

  /** Stream.iterate(seed, f).limit(n): seed, f(seed), f(f(seed)), ... */
  function IterateLimit<T>(seed: T, f: T -> T, n: nat): (r: seq<T>)
    ensures |r| == n
    ensures forall k :: 0 <= k < n ==> r[k] == ApplyN(f, seed, k)
  {
    if n == 0 then [] else [seed] + IterateLimit(f(seed), f, n - 1)
  }

  /** A longer prefix of the infinite stream, limited to n, is the same as
      limiting the stream to n directly: limit(n) only ever needs the first
      n elements of the source. */
  lemma IterateLimitPrefix<T>(seed: T, f: T -> T, m: nat, n: nat)
    requires n <= m
    ensures Limit(IterateLimit(seed, f, m), n) == IterateLimit(seed, f, n)
  {
  }

  /** IntStream.rangeClosed(lo, hi) */
  function RangeClosed(lo: int, hi: int): (r: seq<int>)
    ensures |r| == if lo <= hi then hi - lo + 1 else 0
    ensures forall k :: 0 <= k < |r| ==> r[k] == lo + k
    decreases hi - lo
  {
    if lo > hi then [] else [lo] + RangeClosed(lo + 1, hi)
  }

  /** rangeClosed(lo, hi + 1) is rangeClosed(lo, hi) followed by hi + 1. */
  lemma RangeClosedSnoc(lo: int, hi: int)
    requires lo <= hi + 1
    ensures RangeClosed(lo, hi + 1) == RangeClosed(lo, hi) + [hi + 1]
  {
    assert |RangeClosed(lo, hi + 1)| == |RangeClosed(lo, hi) + [hi + 1]|;
  }
}
