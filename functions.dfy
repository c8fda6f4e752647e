/**
 * java.util.function.Predicate and Function as values, with their default
 * combinators. They are pure, so the short-circuit evaluation of
 * Predicate.and / Predicate.or has no observable effect.
 */
module Functions {

  /** p.negate() */
  function Negate<T(!new)>(p: T -> bool): (r: T -> bool)
    ensures forall x :: r(x) == !p(x)
  {
    x => !p(x)
  }

  /** p.and(q) */
  function And<T(!new)>(p: T -> bool, q: T -> bool): (r: T -> bool)
    ensures forall x :: r(x) == (p(x) && q(x))
  {
    x => p(x) && q(x)
  }

  /** p.or(q) */
  function Or<T(!new)>(p: T -> bool, q: T -> bool): (r: T -> bool)
    ensures forall x :: r(x) == (p(x) || q(x))
  {
    x => p(x) || q(x)
  }

  /** f.andThen(g): apply f, then g. */
  function AndThen<A(!new), B, C>(f: A -> B, g: B -> C): (h: A -> C)
    ensures forall x :: h(x) == g(f(x))
  {
    x => g(f(x))
  }

  /** f.compose(g): apply g, then f. */
  function Compose<A(!new), B, C>(f: B -> C, g: A -> B): (h: A -> C)
    ensures forall x :: h(x) == f(g(x))
  {
    x => f(g(x))
  }

  /** The two composition orders are mirror images of each other, and
      andThen chains associate. */
  lemma AndThenIsFlippedCompose<A(!new), B, C>(f: A -> B, g: B -> C, x: A)
    ensures AndThen(f, g)(x) == Compose(g, f)(x) == g(f(x))
  {
  }

  lemma AndThenAssociative<A(!new), B(!new), C, D>(f: A -> B, g: B -> C, h: C -> D, x: A)
    ensures AndThen(AndThen(f, g), h)(x) == AndThen(f, AndThen(g, h))(x) == h(g(f(x)))
  {
  }
}
