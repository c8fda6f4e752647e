/**
 * The dish record of the stream examples and the menu both stream demos
 * start from.
 */
module Dishes {

  datatype DishType = Meat | Fish | Other

  datatype Dish = Dish(name: string, vegetarian: bool, calories: int, kind: DishType)

  /** Dish::getName */
  function Name(d: Dish): string { d.name }

  /** Dish::getCalories */
  function Calories(d: Dish): int { d.calories }

  /** Dish::isVegetarian */
  predicate IsVegetarian(d: Dish) { d.vegetarian }

  /** dish -> dish.getCalories() > 300, the filter both stream demos use. */
  predicate IsHighCaloric(d: Dish) { d.calories > 300 }

  const Menu: seq<Dish> := [
    Dish("pork", false, 800, Meat),
    Dish("beef", false, 700, Meat),
    Dish("chicken", false, 400, Meat),
    Dish("french fries", true, 530, Other),
    Dish("rice", true, 350, Other),
    Dish("season fruit", true, 120, Other),
    Dish("pizza", true, 550, Other),
    Dish("prawns", false, 300, Fish),
    Dish("salmon", false, 450, Fish)
  ]
}
