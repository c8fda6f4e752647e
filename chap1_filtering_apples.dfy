/**
 * Chapter 1's FilteringApples: sorting an inventory by weight, first with
 * an anonymous comparator that subtracts weights and then with
 * comparing(Apple::getWeight), and filtering it with hand-written loops,
 * with a loop parameterised by a predicate and with a stream.
 */
module Chap1FilteringApples {
  import opened Apples
  import opened Comparators
  import Streams
  import Lists

  // ---------------------------------------------------------------------
  // the filtering loops

  /** filterGreenApples: the green apples, in inventory order. */
  method FilterGreenApples(inventory: seq<Apple>) returns (result: seq<Apple>)
    ensures result == Streams.Filter(inventory, IsGreen)
  {
    result := [];
    for i := 0 to |inventory|
      invariant result == Streams.Filter(inventory[..i], IsGreen)
    {
      assert inventory[..i + 1] == inventory[..i] + [inventory[i]];
      Streams.FilterSnoc(inventory[..i], inventory[i], IsGreen);
      if inventory[i].color == "green" {
        result := result + [inventory[i]];
      }
    }
    assert inventory[..|inventory|] == inventory;
  }

  /** filterHeavyApples: the apples heavier than 150, in inventory order. */
  method FilterHeavyApples(inventory: seq<Apple>) returns (result: seq<Apple>)
    ensures result == Streams.Filter(inventory, IsHeavy)
  {
    result := [];
    for i := 0 to |inventory|
      invariant result == Streams.Filter(inventory[..i], IsHeavy)
    {
      assert inventory[..i + 1] == inventory[..i] + [inventory[i]];
      Streams.FilterSnoc(inventory[..i], inventory[i], IsHeavy);
      if inventory[i].weight > 150 {
        result := result + [inventory[i]];
      }
    }
    assert inventory[..|inventory|] == inventory;
  }

  /** filterApples(inventory, p): the apples satisfying p, in inventory
      order; the same list the stream inventory.stream().filter(p) collects. */
  method FilterApples(inventory: seq<Apple>, p: Apple -> bool) returns (result: seq<Apple>)
    ensures result == Streams.Filter(inventory, p)
  {
    result := [];
    for i := 0 to |inventory|
      invariant result == Streams.Filter(inventory[..i], p)
    {
      assert inventory[..i + 1] == inventory[..i] + [inventory[i]];
      Streams.FilterSnoc(inventory[..i], inventory[i], p);
      if p(inventory[i]) {
        result := result + [inventory[i]];
      }
    }
    assert inventory[..|inventory|] == inventory;
  }

  // ---------------------------------------------------------------------
  // the subtracting comparator

  const TwoTo31: int := 0x8000_0000
  const TwoTo32: int := 0x1_0000_0000

  /** The values of a Java int. */
  predicate IsInt(x: int)
  {
    -TwoTo31 <= x < TwoTo31
  }

  /** Java int arithmetic: the int congruent to x modulo 2^32. */
  function WrapInt(x: int): (r: int)
    ensures IsInt(r) && (r - x) % TwoTo32 == 0
    ensures IsInt(x) ==> r == x
  {
    (x + TwoTo31) % TwoTo32 - TwoTo31
  }

  /** The anonymous comparator as written: o1.getWeight() - o2.getWeight(),
      computed in int arithmetic. */
  function SubtractWeights(a: Apple, b: Apple): int
  {
    WrapInt(a.weight - b.weight)
  }

  /** The comparator that line sorts by, comparing(Apple::getWeight). */
  function ByWeight(): Comparator<Apple>
  {
    Comparing(Weight)
  }

  /** For weights that are not negative, the difference cannot overflow and
      its sign is the order of the weights. */
  lemma SubtractWeightsAgrees(a: Apple, b: Apple)
    requires 0 <= a.weight < TwoTo31 && 0 <= b.weight < TwoTo31
    ensures SubtractWeights(a, b) < 0 <==> a.weight < b.weight
    ensures SubtractWeights(a, b) == 0 <==> a.weight == b.weight
    ensures SubtractWeights(a, b) <= 0 <==> ByWeight()(a, b) <= 0
  {
  }

  /** With a negative weight the difference can overflow: the heaviest
      possible apple is then ordered before one of weight -1. */
  lemma SubtractWeightsOverflows()
    ensures var heavy, light := Apple(TwoTo31 - 1, "green"), Apple(-1, "red");
      IsInt(heavy.weight) && IsInt(light.weight)
      && heavy.weight > light.weight
      && SubtractWeights(heavy, light) < 0
      && ByWeight()(heavy, light) > 0
  {
  }

  /** Sorting an inventory of non-negative weights with the subtracting
      comparator gives the same list as sorting it by comparing(getWeight). */
  lemma SortBySubtractionIsSortByWeight(inventory: seq<Apple>)
    requires forall a :: a in inventory ==> 0 <= a.weight < TwoTo31
    ensures Streams.SortBy(inventory, SubtractWeights) == Streams.SortBy(inventory, ByWeight())
  {
    forall a: Apple, b: Apple | 0 <= a.weight < TwoTo31 && 0 <= b.weight < TwoTo31
      ensures SubtractWeights(a, b) <= 0 <==> ByWeight()(a, b) <= 0
    {
      SubtractWeightsAgrees(a, b);
    }
    Streams.SortBySameSigns(inventory, SubtractWeights, ByWeight(), (a: Apple) => 0 <= a.weight < TwoTo31);
  }

  // ---------------------------------------------------------------------
  // main

  const Inventory: seq<Apple> := [Apple(80, "green"), Apple(155, "green"), Apple(120, "red")]

  /** The inventory sorted by weight. */
  const SortedInventory: seq<Apple> := [Apple(80, "green"), Apple(120, "red"), Apple(155, "green")]

  /** Collections.sort(inventory, subtracting comparator), then
      inventory.sort(comparing(Apple::getWeight)): both leave the inventory
      ordered by weight. */
  method SortInventory() returns (afterSubtracting: seq<Apple>, afterComparing: seq<Apple>)
    ensures afterSubtracting == SortedInventory
    ensures afterComparing == SortedInventory
  {
    var inventory := new Apple[3];
    inventory[0], inventory[1], inventory[2] := Inventory[0], Inventory[1], Inventory[2];
    assert inventory[..] == Inventory;
    Lists.Sort(inventory, SubtractWeights);
    afterSubtracting := inventory[..];
    SortInventoryBySubtracting();
    Lists.Sort(inventory, ByWeight());
    afterComparing := inventory[..];
    var cmp := ByWeight();
    assert cmp(SortedInventory[0], SortedInventory[1]) < 0;
    assert cmp(SortedInventory[1], SortedInventory[2]) < 0;
    Streams.SortByOrdered(SortedInventory, cmp);
  }

  lemma SortInventoryBySubtracting()
    ensures Streams.SortBy(Inventory, SubtractWeights) == SortedInventory
  {
    var s := Inventory;
    var a0, a1, a2 := s[0], s[1], s[2];
    assert s[1..] == [a1, a2] && s[2..] == [a2];
    assert a0.weight == 80 && a1.weight == 155 && a2.weight == 120;
    assert SubtractWeights(a1, a2) == 35;
    assert SubtractWeights(a0, a2) == -40;
    assert Streams.SortBy([a2], SubtractWeights) == [a2];
    assert [a1, a2][1..] == [a2];
    assert Streams.Insert(a1, [], SubtractWeights) == [a1];
    assert Streams.Insert(a1, [a2], SubtractWeights) == [a2, a1];
    assert Streams.SortBy([a1, a2], SubtractWeights) == [a2, a1];
    assert Streams.Insert(a0, [a2, a1], SubtractWeights) == [a0, a2, a1];
  }

  /** The filters applied to the sorted inventory. */
  method FilterInventory()
    returns (green: seq<Apple>, heavy: seq<Apple>, red: seq<Apple>, lightGreen: seq<Apple>,
             heavyByStream: seq<Apple>)
    ensures green == [Apple(80, "green"), Apple(155, "green")]
    ensures heavy == [Apple(155, "green")]
    ensures red == [Apple(120, "red")]
    ensures lightGreen == [Apple(80, "green")]
    ensures heavyByStream == heavy
  {
    var _, inventory := SortInventory();
    green := FilterApples(inventory, IsGreen);
    heavy := FilterApples(inventory, IsHeavy);
    red := FilterApples(inventory, IsRed);
    lightGreen := FilterApples(inventory, IsLightGreen);
    heavyByStream := Streams.Filter(inventory, IsHeavy);
    FiltersOfSortedInventory();
  }

  /** (Apple a) -> a.getWeight() < 150 && "green".equals(a.getColor()) */
  predicate IsLightGreen(a: Apple)
  {
    a.weight < 150 && a.color == "green"
  }

  lemma FiltersOfSortedInventory()
    ensures Streams.Filter(SortedInventory, IsGreen) == [Apple(80, "green"), Apple(155, "green")]
    ensures Streams.Filter(SortedInventory, IsHeavy) == [Apple(155, "green")]
    ensures Streams.Filter(SortedInventory, IsRed) == [Apple(120, "red")]
    ensures Streams.Filter(SortedInventory, IsLightGreen) == [Apple(80, "green")]
  {
  }
}
