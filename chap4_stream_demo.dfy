/**
 * Chapter 4's StreamDemo: the names of the low-calorie dishes sorted by
 * calories, computed first with loops and an in-place sort (Java 7) and
 * then with a stream pipeline, and a filter/map/limit pipeline.
 */
module Chap4StreamDemo {
  import opened Comparators
  import opened Dishes
  import opened Streams
  import Lists

  /** dish -> dish.getCalories() < 400: strictly below 400. */
  predicate IsLowCaloric(d: Dish)
  {
    d.calories < 400
  }

  /** The anonymous comparator Integer.compare(o1.getCalories(),
      o2.getCalories()), which is also comparing(Dish::getCalories). */
  function ByCalories(): Comparator<Dish>
  {
    Comparing(Calories)
  }

  /** menu.stream().filter(low).sorted(comparing(Dish::getCalories))
      .map(Dish::getName).collect(toList()) */
  function LowCaloricDishNames(menu: seq<Dish>): seq<string>
  {
    Map(SortBy(Filter(menu, IsLowCaloric), ByCalories()), Name)
  }

  /** The Java 7 version: a filtering loop into a fresh list, an in-place
      sort of that list, and a loop collecting the names. It computes the
      same list as the stream pipeline. */
  method LowCaloricDishNamesJava7(menu: seq<Dish>) returns (lowCaloricDishesName: seq<string>)
    ensures lowCaloricDishesName == LowCaloricDishNames(menu)
  {
    var lowCaloricDishes := CollectLowCaloricDishes(menu);
    var sorted := new Dish[|lowCaloricDishes|](i requires 0 <= i < |lowCaloricDishes| => lowCaloricDishes[i]);
    assert sorted[..] == lowCaloricDishes;
    Lists.Sort(sorted, ByCalories());
    lowCaloricDishesName := CollectNames(sorted);
  }

  /** The first loop: the dishes below 400 calories, in menu order. */
  method CollectLowCaloricDishes(menu: seq<Dish>) returns (lowCaloricDishes: seq<Dish>)
    ensures lowCaloricDishes == Filter(menu, IsLowCaloric)
  {
    lowCaloricDishes := [];
    for i := 0 to |menu|
      invariant lowCaloricDishes == Filter(menu[..i], IsLowCaloric)
    {
      assert menu[..i + 1] == menu[..i] + [menu[i]];
      FilterSnoc(menu[..i], menu[i], IsLowCaloric);
      if menu[i].calories < 400 {
        lowCaloricDishes := lowCaloricDishes + [menu[i]];
      }
    }
    assert menu[..|menu|] == menu;
  }

  /** The second loop: the names of the sorted dishes, in order. */
  method CollectNames(dishes: array<Dish>) returns (names: seq<string>)
    ensures names == Map(dishes[..], Name)
  {
    names := [];
    for i := 0 to dishes.Length
      invariant names == Map(dishes[..i], Name)
    {
      assert dishes[..i + 1] == dishes[..i] + [dishes[i]];
      MapSnoc(dishes[..i], dishes[i], Name);
      names := names + [dishes[i].name];
    }
    assert dishes[..dishes.Length] == dishes[..];
  }

  /** For any menu: the names are those of the dishes below 400 calories,
      each as often as it occurs, listed in non-decreasing order of
      calories. */
  lemma LowCaloricDishNamesSpec(menu: seq<Dish>)
    ensures var sorted := SortBy(Filter(menu, IsLowCaloric), ByCalories());
      && multiset(sorted) == multiset(Filter(menu, IsLowCaloric))
      && (forall d :: d in sorted <==> d in menu && d.calories < 400)
      && (forall i, j :: 0 <= i < j < |sorted| ==> sorted[i].calories <= sorted[j].calories)
      && LowCaloricDishNames(menu) == Map(sorted, Name)
  {
    var low := Filter(menu, IsLowCaloric);
    ComparingValid(Calories);
    SortBySorted(low, ByCalories());
    SortByPermutation(low, ByCalories());
    FilterMembers(menu, IsLowCaloric);
    SameElements(SortBy(low, ByCalories()), low);
  }

  /** On the example menu: [season fruit, prawns, rice]. Chicken has exactly
      400 calories and is left out. */
  lemma LowCaloricDishNamesOfMenu()
    ensures Filter(Menu, IsLowCaloric) == [Menu[4], Menu[5], Menu[7]]
    ensures LowCaloricDishNames(Menu) == ["season fruit", "prawns", "rice"]
    ensures Menu[2].name == "chicken" && !IsLowCaloric(Menu[2])
  {
    LowCaloricDishesOfMenu();
    SortLowCaloricDishesOfMenu();
    var sorted := [Menu[5], Menu[7], Menu[4]];
    assert Map(sorted, Name) == ["season fruit", "prawns", "rice"];
  }

  lemma LowCaloricDishesOfMenu()
    ensures Filter(Menu, IsLowCaloric) == [Menu[4], Menu[5], Menu[7]]
  {
  }

  lemma SortLowCaloricDishesOfMenu()
    ensures SortBy([Menu[4], Menu[5], Menu[7]], ByCalories()) == [Menu[5], Menu[7], Menu[4]]
  {
    var low := [Menu[4], Menu[5], Menu[7]];
    var cmp := ByCalories();
    var rice, fruit, prawns := Menu[4], Menu[5], Menu[7];
    assert low[1..] == [fruit, prawns] && low[2..] == [prawns] && [fruit, prawns][1..] == [prawns];
    assert cmp(fruit, prawns) < 0 && cmp(rice, fruit) > 0 && cmp(rice, prawns) > 0;
    assert SortBy([prawns], cmp) == [prawns];
    assert SortBy([fruit, prawns], cmp) == [fruit, prawns];
    assert Insert(rice, [prawns], cmp) == [prawns, rice];
    assert Insert(rice, [fruit, prawns], cmp) == [fruit, prawns, rice];
    assert SortBy(low, cmp) == [fruit, prawns, rice];
  }

  /** menu.stream().filter(dish -> dish.getCalories() > 300)
      .map(Dish::getName).limit(3).collect(toList()) */
  function ThreeHighCaloricDishNames(menu: seq<Dish>): (r: seq<string>)
    ensures |r| <= 3 && r <= Map(Filter(menu, IsHighCaloric), Name)
    ensures |r| == 3 || r == Map(Filter(menu, IsHighCaloric), Name)
  {
    Limit(Map(Filter(menu, IsHighCaloric), Name), 3)
  }

  /** The pipeline stops pulling dishes once three have passed the filter:
      whatever follows a prefix of the menu that already holds three
      high-calorie dishes does not affect the result. */
  lemma ThreeHighCaloricDishNamesIgnoresRest(menu: seq<Dish>, rest: seq<Dish>)
    requires |Filter(menu, IsHighCaloric)| >= 3
    ensures ThreeHighCaloricDishNames(menu + rest) == ThreeHighCaloricDishNames(menu)
  {
    FilterConcat(menu, rest, IsHighCaloric);
    MapConcat(Filter(menu, IsHighCaloric), Filter(rest, IsHighCaloric), Name);
  }

  /** On the example menu: [pork, beef, chicken]. */
  lemma ThreeHighCaloricDishNamesOfMenu()
    ensures ThreeHighCaloricDishNames(Menu) == ["pork", "beef", "chicken"]
  {
    HighCaloricDishesOfMenu();
    var names := Map([Menu[0], Menu[1], Menu[2], Menu[3], Menu[4], Menu[6], Menu[8]], Name);
    assert names[0] == "pork" && names[1] == "beef" && names[2] == "chicken";
  }

  lemma HighCaloricDishesOfMenu()
    ensures Filter(Menu, IsHighCaloric) == [Menu[0], Menu[1], Menu[2], Menu[3], Menu[4], Menu[6], Menu[8]]
  {
  }
}
