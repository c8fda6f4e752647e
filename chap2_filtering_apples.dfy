/**
 * Chapter 2's FilteringApples: behaviour parameterisation in steps, from a
 * loop that selects green apples, through loops parameterised by a colour
 * and by a weight, to a loop parameterised by an ApplePredicate and a
 * generic filter over any list.
 */
module Chap2FilteringApples {
  import opened Apples
  import opened Functions
  import Streams

  /** filter(list, p): the generic loop of the seventh attempt. */
  method Filter<T>(list: seq<T>, p: T -> bool) returns (result: seq<T>)
    ensures result == Streams.Filter(list, p)
  {
    result := [];
    for i := 0 to |list|
      invariant result == Streams.Filter(list[..i], p)
    {
      assert list[..i + 1] == list[..i] + [list[i]];
      Streams.FilterSnoc(list[..i], list[i], p);
      if p(list[i]) {
        result := result + [list[i]];
      }
    }
    assert list[..|list|] == list;
  }

  /** filterGreenApples: the same loop as Chap1FilteringApples.FilterGreenApples,
      repeated in this chapter's file as its first attempt. */
  method FilterGreenApples(inventory: seq<Apple>) returns (result: seq<Apple>)
    ensures result == Streams.Filter(inventory, IsGreen)
  {
    result := [];
    for i := 0 to |inventory|
      invariant result == Streams.Filter(inventory[..i], IsGreen)
    {
      assert inventory[..i + 1] == inventory[..i] + [inventory[i]];
      Streams.FilterSnoc(inventory[..i], inventory[i], IsGreen);
      if inventory[i].color == "green" {
        result := result + [inventory[i]];
      }
    }
    assert inventory[..|inventory|] == inventory;
  }

  /** The apples of the given colour: apple.getColor().equals(color). */
  function HasColor(color: string): (p: Apple -> bool)
    ensures forall a :: p(a) <==> a.color == color
  {
    (a: Apple) => a.color == color
  }

  /** The apples heavier than the given weight. */
  function HeavierThan(weight: int): (p: Apple -> bool)
    ensures forall a :: p(a) <==> a.weight > weight
  {
    (a: Apple) => a.weight > weight
  }

  /** filterApplesByColor */
  method FilterApplesByColor(inventory: seq<Apple>, color: string) returns (result: seq<Apple>)
    ensures result == Streams.Filter(inventory, HasColor(color))
  {
    result := [];
    for i := 0 to |inventory|
      invariant result == Streams.Filter(inventory[..i], HasColor(color))
    {
      assert inventory[..i + 1] == inventory[..i] + [inventory[i]];
      Streams.FilterSnoc(inventory[..i], inventory[i], HasColor(color));
      if inventory[i].color == color {
        result := result + [inventory[i]];
      }
    }
    assert inventory[..|inventory|] == inventory;
  }

  /** filterApplesByWeight: strictly heavier than the weight. */
  method FilterApplesByWeight(inventory: seq<Apple>, weight: int) returns (result: seq<Apple>)
    ensures result == Streams.Filter(inventory, HeavierThan(weight))
  {
    result := [];
    for i := 0 to |inventory|
      invariant result == Streams.Filter(inventory[..i], HeavierThan(weight))
    {
      assert inventory[..i + 1] == inventory[..i] + [inventory[i]];
      Streams.FilterSnoc(inventory[..i], inventory[i], HeavierThan(weight));
      if inventory[i].weight > weight {
        result := result + [inventory[i]];
      }
    }
    assert inventory[..|inventory|] == inventory;
  }

  /** filterApples(inventory, p) for an ApplePredicate p: the same loop as
      Chap1FilteringApples.FilterApples; only the predicate's Java type differs. */
  method FilterApples(inventory: seq<Apple>, p: Apple -> bool) returns (result: seq<Apple>)
    ensures result == Streams.Filter(inventory, p)
  {
    result := [];
    for i := 0 to |inventory|
      invariant result == Streams.Filter(inventory[..i], p)
    {
      assert inventory[..i + 1] == inventory[..i] + [inventory[i]];
      Streams.FilterSnoc(inventory[..i], inventory[i], p);
      if p(inventory[i]) {
        result := result + [inventory[i]];
      }
    }
    assert inventory[..|inventory|] == inventory;
  }

  /** AppleRedAndHeavyPredicate.test */
  predicate AppleRedAndHeavy(a: Apple)
  {
    a.color == "red" && a.weight > 150
  }

  /** Each step generalises the one before it: the green loop is the colour
      loop for "green", the fixed heavy predicate is the weight loop for
      150, and the red-and-heavy predicate selects what filtering by colour
      "red" and then by weight 150 selects. */
  lemma AttemptsAgree(inventory: seq<Apple>)
    ensures Streams.Filter(inventory, IsGreen) == Streams.Filter(inventory, HasColor("green"))
    ensures Streams.Filter(inventory, IsHeavy) == Streams.Filter(inventory, HeavierThan(150))
    ensures Streams.Filter(inventory, AppleRedAndHeavy)
         == Streams.Filter(Streams.Filter(inventory, HasColor("red")), HeavierThan(150))
  {
    Streams.FilterExtensional(inventory, IsGreen, HasColor("green"));
    Streams.FilterExtensional(inventory, IsHeavy, HeavierThan(150));
    Streams.FilterExtensional(inventory, AppleRedAndHeavy, And(HasColor("red"), HeavierThan(150)));
    Streams.FilterAnd(inventory, HasColor("red"), HeavierThan(150));
  }

  const Inventory: seq<Apple> :=
    [Apple(80, "green"), Apple(155, "green"), Apple(155, "red"), Apple(120, "red")]

  /** The results main prints: by colour, with the red-and-heavy class,
      with an anonymous class and with a lambda for "red". */
  method FilterInventory() returns (green: seq<Apple>, red: seq<Apple>, redAndHeavy: seq<Apple>,
                                  redByClass: seq<Apple>, redByLambda: seq<Apple>)
    ensures green == [Apple(80, "green"), Apple(155, "green")]
    ensures red == [Apple(155, "red"), Apple(120, "red")]
    ensures redAndHeavy == [Apple(155, "red")]
    ensures redByClass == red && redByLambda == red
  {
    green := FilterApplesByColor(Inventory, "green");
    red := FilterApplesByColor(Inventory, "red");
    redAndHeavy := FilterApples(Inventory, AppleRedAndHeavy);
    redByClass := FilterApples(Inventory, IsRed);
    redByLambda := FilterApples(Inventory, (apple: Apple) => apple.color == "red");
    InventoryFilters();
  }

  lemma InventoryFilters()
    ensures Streams.Filter(Inventory, HasColor("green")) == [Apple(80, "green"), Apple(155, "green")]
    ensures Streams.Filter(Inventory, HasColor("red")) == [Apple(155, "red"), Apple(120, "red")]
    ensures Streams.Filter(Inventory, AppleRedAndHeavy) == [Apple(155, "red")]
    ensures Streams.Filter(Inventory, IsRed) == [Apple(155, "red"), Apple(120, "red")]
    ensures Streams.Filter(Inventory, (apple: Apple) => apple.color == "red") == [Apple(155, "red"), Apple(120, "red")]
  {
    assert Streams.Filter(Inventory, HasColor("green")) == [Apple(80, "green"), Apple(155, "green")];
    assert Streams.Filter(Inventory, HasColor("red")) == [Apple(155, "red"), Apple(120, "red")];
    Streams.FilterExtensional(Inventory, (apple: Apple) => apple.color == "red", IsRed);
  }
}
