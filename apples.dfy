/**
 * The apple record shared by the filtering examples. Chapters 1, 2 and 3
 * each declare their own Apple class with the same two fields and only
 * getters and setters; one datatype stands for all three.
 */
module Apples {

  datatype Apple = Apple(weight: int, color: string)

  /** Apple::getWeight */
  function Weight(a: Apple): int { a.weight }

  /** Apple::getColor */
  function Color(a: Apple): string { a.color }

  /** "green".equals(apple.getColor()) */
  predicate IsGreen(a: Apple)
  {
    a.color == "green"
  }

  /** "red".equals(apple.getColor()) */
  predicate IsRed(a: Apple)
  {
    a.color == "red"
  }

  /** apple.getWeight() > 150: strictly heavier than 150. */
  predicate IsHeavy(a: Apple)
  {
    a.weight > 150
  }
}
