/**
 * The lambda examples of chapter 3: the hand-written generic map, forEach
 * and filter loops, a predicate on strings, sorting with composed
 * comparators, composed predicates, composed functions and the Letter
 * transformation pipelines.
 */
module Chap3Lambda {
  import opened Functions
  import opened Comparators
  import opened Apples
  import Streams
  import Lists

  // ---------------------------------------------------------------------
  // the generic helpers

  /** map(list, function): applies the function to every element, collecting
      the results in order. */
  method Map<T, R>(list: seq<T>, f: T -> R) returns (result: seq<R>)
    ensures result == Streams.Map(list, f)
  {
    result := [];
    for i := 0 to |list|
      invariant result == Streams.Map(list[..i], f)
    {
      assert list[..i + 1] == list[..i] + [list[i]];
      Streams.MapSnoc(list[..i], list[i], f);
      result := result + [f(list[i])];
    }
    assert list[..|list|] == list;
  }

  /** forEach(list, consumer): hands every element to the consumer, in order.
      A consumer is observed through the events it emits for an element, so
      the loop's effect is the concatenation of those events. */
  method ForEach<T, E>(list: seq<T>, consumer: T -> seq<E>) returns (events: seq<E>)
    ensures events == Streams.FlatMap(list, consumer)
  {
    events := [];
    for i := 0 to |list|
      invariant events == Streams.FlatMap(list[..i], consumer)
    {
      assert list[..i + 1] == list[..i] + [list[i]];
      Streams.FlatMapSnoc(list[..i], list[i], consumer);
      events := events + consumer(list[i]);
    }
    assert list[..|list|] == list;
  }

  /** filter(list, p): the elements satisfying p, in order. The same generic
      loop as Chap2FilteringApples.Filter, declared again in this file. */
  method Filter<T>(list: seq<T>, p: T -> bool) returns (result: seq<T>)
    ensures result == Streams.Filter(list, p)
  {
    result := [];
    for i := 0 to |list|
      invariant result == Streams.Filter(list[..i], p)
    {
      assert list[..i + 1] == list[..i] + [list[i]];
      Streams.FilterSnoc(list[..i], list[i], p);
      if p(list[i]) {
        result := result + [list[i]];
      }
    }
    assert list[..|list|] == list;
  }

  // ---------------------------------------------------------------------
  // Predicate, Consumer, Function

  /** (String s) -> !s.isEmpty() */
  predicate NonEmpty(s: string)
  {
    s != []
  }

  /** String::length */
  function Length(s: string): int
  {
    |s|
  }

  /** The non-empty words and the word lengths of the example list. */
  method FilterAndMapWords() returns (nonEmpty: seq<string>, lengths: seq<int>)
    ensures nonEmpty == ["Java 8", "In", "Action"]
    ensures lengths == [6, 0, 2, 0, 6]
  {
    var list := ["Java 8", "", "In", "", "Action"];
    nonEmpty := Filter(list, NonEmpty);
    lengths := Map(list, Length);
  }

  /** The consumer System.out::println emits one line per element. */
  function PrintLine(i: int): seq<int>
  {
    [i]
  }

  method ForEachPrint() returns (lines: seq<int>)
    ensures lines == [1, 2, 3, 4, 5]
  {
    lines := ForEach([1, 2, 3, 4, 5], PrintLine);
  }

  // ---------------------------------------------------------------------
  // method references: sorting strings

  /** stringList.sort(String::compareToIgnoreCase) and then
      stringList.sort(String::compareTo) on a list of four letters. The
      first sort is stable, so "a" stays before "A" and "b" before "B". */
  method SortLetters() returns (ignoringCase: seq<string>, natural: seq<string>)
    ensures ignoringCase == ["a", "A", "b", "B"]
    ensures natural == ["A", "B", "a", "b"]
  {
    var list := new string[4];
    list[0], list[1], list[2], list[3] := "a", "b", "A", "B";
    assert list[..] == ["a", "b", "A", "B"];
    Lists.Sort(list, CompareIgnoreCase);
    ignoringCase := list[..];
    SortIgnoringCase();
    Lists.Sort(list, CompareStrings);
    natural := list[..];
    SortNatural();
  }

  lemma SortIgnoringCase()
    ensures Streams.SortBy(["a", "b", "A", "B"], CompareIgnoreCase) == ["a", "A", "b", "B"]
  {
    var s := ["a", "b", "A", "B"];
    assert s[1..] == ["b", "A", "B"] && s[2..] == ["A", "B"] && s[3..] == ["B"];
    assert Streams.SortBy(["B"], CompareIgnoreCase) == ["B"];
    assert CompareIgnoreCase("A", "B") < 0;
    assert Streams.SortBy(["A", "B"], CompareIgnoreCase) == ["A", "B"];
    assert CompareIgnoreCase("b", "A") > 0 && CompareIgnoreCase("b", "B") == 0;
    assert Streams.SortBy(["b", "A", "B"], CompareIgnoreCase) == ["A", "b", "B"];
    assert CompareIgnoreCase("a", "A") == 0;
  }

  lemma SortNatural()
    ensures Streams.SortBy(["a", "A", "b", "B"], CompareStrings) == ["A", "B", "a", "b"]
  {
    var s := ["a", "A", "b", "B"];
    assert s[1..] == ["A", "b", "B"] && s[2..] == ["b", "B"] && s[3..] == ["B"];
    assert Streams.SortBy(["B"], CompareStrings) == ["B"];
    assert CompareStrings("b", "B") > 0;
    assert Streams.SortBy(["b", "B"], CompareStrings) == ["B", "b"];
    assert CompareStrings("A", "B") < 0;
    assert Streams.SortBy(["A", "b", "B"], CompareStrings) == ["A", "B", "b"];
    assert CompareStrings("a", "A") > 0 && CompareStrings("a", "B") > 0 && CompareStrings("a", "b") < 0;
    assert Streams.Insert("a", ["B", "b"], CompareStrings) == ["B", "a", "b"];
    assert Streams.Insert("a", ["A", "B", "b"], CompareStrings) == ["A", "B", "a", "b"];
  }

  // ---------------------------------------------------------------------
  // comparators before and after lambdas

  /** o1.getWeight().compareTo(o2.getWeight()): Integer.compareTo answers
      -1, 0 or 1, the anonymous class and the lambda alike. */
  function CompareWeights(o1: Apple, o2: Apple): int
  {
    if o1.weight < o2.weight then -1 else if o1.weight == o2.weight then 0 else 1
  }

  /** The anonymous comparator, the lambda and comparing(Apple::getWeight)
      are one and the same order: lighter apples first. */
  lemma WeightComparatorsAgree(o1: Apple, o2: Apple)
    ensures CompareWeights(o1, o2) == Comparing(Weight)(o1, o2)
    ensures CompareWeights(o1, o2) < 0 <==> o1.weight < o2.weight
    ensures CompareWeights(o1, o2) == 0 <==> o1.weight == o2.weight
  {
  }

  // ---------------------------------------------------------------------
  // composing comparators

  const Inventory: seq<Apple> :=
    [Apple(80, "green"), Apple(155, "green"), Apple(155, "red"), Apple(120, "red")]

  /** The inventory once sorted by descending weight. */
  const SortedInventory: seq<Apple> :=
    [Apple(155, "green"), Apple(155, "red"), Apple(120, "red"), Apple(80, "green")]

  /** comparing(Apple::getWeight).reversed() */
  function ByWeightDescending(): Comparator<Apple>
  {
    Reversed(Comparing(Weight))
  }

  /** comparing(Apple::getWeight).reversed().thenComparing(Apple::getColor) */
  function ByWeightDescendingThenColor(): Comparator<Apple>
  {
    ThenComparing(Reversed(Comparing(Weight)), ComparingString(Color))
  }

  /** The two in-place sorts of the inventory. The first leaves the two
      apples of 155 in their original order, the second orders them by
      colour, which here is the same order. */
  method SortInventory() returns (byWeight: seq<Apple>, byWeightThenColor: seq<Apple>)
    ensures byWeight == SortedInventory
    ensures byWeightThenColor == byWeight
  {
    var inventory := new Apple[4];
    inventory[0], inventory[1], inventory[2], inventory[3] := Inventory[0], Inventory[1], Inventory[2], Inventory[3];
    assert inventory[..] == Inventory;
    Lists.Sort(inventory, ByWeightDescending());
    byWeight := inventory[..];
    SortByWeightDescending();
    Lists.Sort(inventory, ByWeightDescendingThenColor());
    byWeightThenColor := inventory[..];
    var cmp := ByWeightDescendingThenColor();
    assert cmp(byWeight[0], byWeight[1]) < 0;
    Streams.SortByOrdered(byWeight, cmp);
  }

  lemma SortByWeightDescending()
    ensures Streams.SortBy(Inventory, ByWeightDescending()) == SortedInventory
  {
    var s, cmp := Inventory, ByWeightDescending();
    var a0, a1, a2, a3 := s[0], s[1], s[2], s[3];
    assert s[1..] == [a1, a2, a3] && s[2..] == [a2, a3] && s[3..] == [a3];
    assert Streams.SortBy([a3], cmp) == [a3];
    assert Streams.SortBy([a2, a3], cmp) == [a2, a3];
    assert Streams.SortBy([a1, a2, a3], cmp) == [a1, a2, a3];
    assert Streams.Insert(a0, [a3], cmp) == [a3, a0];
    assert Streams.Insert(a0, [a2, a3], cmp) == [a2, a3, a0];
  }

  /** Whatever the inventory, the chained comparator puts heavier apples
      first, orders apples of equal weight by colour, and loses or adds no
      apple. */
  lemma ByWeightDescendingThenColorOrder(inventory: seq<Apple>)
    ensures var r := Streams.SortBy(inventory, ByWeightDescendingThenColor());
      && multiset(r) == multiset(inventory)
      && forall i, j :: 0 <= i < j < |r| ==>
           r[i].weight > r[j].weight
           || (r[i].weight == r[j].weight && CompareStrings(r[i].color, r[j].color) <= 0)
  {
    var cmp := ByWeightDescendingThenColor();
    ComparingValid(Weight);
    ReversedValid(Comparing(Weight));
    ComparingStringValid(Color);
    ThenComparingValid(Reversed(Comparing(Weight)), ComparingString(Color));
    Streams.SortBySorted(inventory, cmp);
    Streams.SortByPermutation(inventory, cmp);
  }

  // ---------------------------------------------------------------------
  // composing predicates

  /** redPredicate.and(heavy).or(green): a left-to-right chain, so it reads
      (red && heavy) || green. */
  function RedAndHeavyOrGreen(): Apple -> bool
  {
    Or(And(IsRed, IsHeavy), IsGreen)
  }

  /** The filters of the sorted inventory. */
  method FilterSortedInventory()
    returns (red: seq<Apple>, notRed: seq<Apple>, redAndHeavy: seq<Apple>, redAndHeavyOrGreen: seq<Apple>)
    ensures red == [Apple(155, "red"), Apple(120, "red")]
    ensures notRed == [Apple(155, "green"), Apple(80, "green")]
    ensures redAndHeavy == [Apple(155, "red")]
    ensures redAndHeavyOrGreen == [Apple(155, "green"), Apple(155, "red"), Apple(80, "green")]
  {
    var _, inventory := SortInventory();
    red := Filter(inventory, IsRed);
    notRed := Filter(inventory, Negate(IsRed));
    redAndHeavy := Filter(inventory, And(IsRed, IsHeavy));
    redAndHeavyOrGreen := Filter(inventory, RedAndHeavyOrGreen());
    FiltersOfSortedInventory();
  }

  lemma FiltersOfSortedInventory()
    ensures Streams.Filter(SortedInventory, IsRed) == [Apple(155, "red"), Apple(120, "red")]
    ensures Streams.Filter(SortedInventory, Negate(IsRed)) == [Apple(155, "green"), Apple(80, "green")]
    ensures Streams.Filter(SortedInventory, And(IsRed, IsHeavy)) == [Apple(155, "red")]
    ensures Streams.Filter(SortedInventory, RedAndHeavyOrGreen())
         == [Apple(155, "green"), Apple(155, "red"), Apple(80, "green")]
  {
    assert Streams.Filter(SortedInventory, IsRed) == [Apple(155, "red"), Apple(120, "red")];
    assert Streams.Filter(SortedInventory, Negate(IsRed)) == [Apple(155, "green"), Apple(80, "green")];
    assert Streams.Filter(SortedInventory, And(IsRed, IsHeavy)) == [Apple(155, "red")];
    assert Streams.Filter(SortedInventory, RedAndHeavyOrGreen())
        == [Apple(155, "green"), Apple(155, "red"), Apple(80, "green")];
  }

  /** For any inventory, the red and the not-red apples together are the
      inventory, and the composed predicate selects exactly the heavy red
      and all the green apples. */
  lemma ComposedPredicates(inventory: seq<Apple>)
    ensures multiset(Streams.Filter(inventory, IsRed))
          + multiset(Streams.Filter(inventory, Negate(IsRed))) == multiset(inventory)
    ensures Streams.Filter(inventory, And(IsRed, IsHeavy))
         == Streams.Filter(Streams.Filter(inventory, IsRed), IsHeavy)
    ensures forall a :: a in Streams.Filter(inventory, RedAndHeavyOrGreen()) <==>
      a in inventory && ((a.color == "red" && a.weight > 150) || a.color == "green")
  {
    Streams.FilterPartition(inventory, IsRed);
    Streams.FilterAnd(inventory, IsRed, IsHeavy);
    Streams.FilterMembers(inventory, RedAndHeavyOrGreen());
  }

  // ---------------------------------------------------------------------
  // composing functions

  /** x -> x + 1 */
  function Inc(x: int): int { x + 1 }

  /** x -> x * 2 */
  function Double(x: int): int { x * 2 }

  /** f.andThen(g) doubles after incrementing; f.compose(g) increments after
      doubling. */
  lemma ComposedFunctions(x: int)
    ensures AndThen(Inc, Double)(x) == 2 * x + 2
    ensures Compose(Inc, Double)(x) == 2 * x + 1
    ensures AndThen(Inc, Double)(1) == 4 && Compose(Inc, Double)(1) == 3
  {
  }
}
