/**
 * java.util.Comparator as a value: a function (a, b) -> int whose sign says
 * whether a comes before b (negative), ties with b (zero) or comes after it
 * (positive), together with the combinators the examples use
 * (Comparator.comparing, reversed, thenComparing), Integer.compare and
 * String.compareTo / compareToIgnoreCase.
 */
module Comparators {

  type Comparator<!T> = (T, T) -> int

  /** The contract a Java comparator must keep, read as a total preorder on
      "cmp(a, b) <= 0": the sign flips when the arguments are swapped, and
      "comes no later than" is transitive. */
  ghost predicate Valid<T(!new)>(cmp: Comparator<T>)
  {
    && (forall a, b :: cmp(a, b) <= 0 <==> cmp(b, a) >= 0)
    && (forall a, b, c :: cmp(a, b) <= 0 && cmp(b, c) <= 0 ==> cmp(a, c) <= 0)
  }

  /** Integer.compare(x, y). */
  function CompareInt(x: int, y: int): int
  {
    if x < y then -1 else if x == y then 0 else 1
  }

  /** String.compareTo: the difference of the first differing characters,
      or else the difference of the lengths. */
  function CompareStrings(a: string, b: string): (r: int)
    ensures r == 0 <==> a == b
  {
    if a == [] || b == [] then |a| - |b|
    else if a[0] != b[0] then a[0] as int - b[0] as int
    else CompareStrings(a[1..], b[1..])
  }

  lemma {:induction false} CompareStringsAntisymmetric(a: string, b: string)
    ensures CompareStrings(a, b) == -CompareStrings(b, a)
  {
    if a != [] && b != [] && a[0] == b[0] {
      CompareStringsAntisymmetric(a[1..], b[1..]);
    }
  }

  lemma {:induction false} CompareStringsTransitive(a: string, b: string, c: string)
    requires CompareStrings(a, b) <= 0 && CompareStrings(b, c) <= 0
    ensures CompareStrings(a, c) <= 0
  {
    if a != [] && b != [] && c != [] && a[0] == b[0] && b[0] == c[0] {
      CompareStringsTransitive(a[1..], b[1..], c[1..]);
    }
  }

  /** The natural order of strings (used by sorted() on a stream of names). */
  lemma CompareStringsValid()
    ensures Valid(CompareStrings)
  {
    forall a, b ensures CompareStrings(a, b) <= 0 <==> CompareStrings(b, a) >= 0 {
      CompareStringsAntisymmetric(a, b);
    }
    forall a, b, c | CompareStrings(a, b) <= 0 && CompareStrings(b, c) <= 0
      ensures CompareStrings(a, c) <= 0
    {
      CompareStringsTransitive(a, b, c);
    }
  }

  function ToLowerAscii(c: char): char
  {
    if 'A' <= c <= 'Z' then (c as int + 32) as char else c
  }

  function LowerAscii(s: string): (r: string)
    ensures |r| == |s|
  {
    if s == [] then [] else [ToLowerAscii(s[0])] + LowerAscii(s[1..])
  }

  /** String.compareToIgnoreCase for ASCII letters: compareTo after folding
      every character to lower case. */
  function CompareIgnoreCase(a: string, b: string): int
  {
    CompareStrings(LowerAscii(a), LowerAscii(b))
  }

  /** Comparator.comparing(key) for an int-valued key. */
  function Comparing<T(!new)>(key: T -> int): (cmp: Comparator<T>)
    ensures forall a, b :: cmp(a, b) == CompareInt(key(a), key(b))
  {
    (a, b) => CompareInt(key(a), key(b))
  }

  /** Comparator.comparing(key) for a String-valued key. */
  function ComparingString<T(!new)>(key: T -> string): (cmp: Comparator<T>)
    ensures forall a, b :: cmp(a, b) == CompareStrings(key(a), key(b))
  {
    (a, b) => CompareStrings(key(a), key(b))
  }

  /** cmp.reversed(): compares the arguments the other way round. */
  function Reversed<T(!new)>(cmp: Comparator<T>): (r: Comparator<T>)
    ensures forall a, b :: r(a, b) == cmp(b, a)
  {
    (a, b) => cmp(b, a)
  }

  /** cmp.thenComparing(other): other breaks the ties of cmp. */
  function ThenComparing<T(!new)>(cmp: Comparator<T>, other: Comparator<T>): (r: Comparator<T>)
    ensures forall a, b :: r(a, b) == if cmp(a, b) != 0 then cmp(a, b) else other(a, b)
  {
    (a, b) => if cmp(a, b) != 0 then cmp(a, b) else other(a, b)
  }

  lemma ComparingValid<T(!new)>(key: T -> int)
    ensures Valid(Comparing(key))
  {
  }

  lemma ComparingStringValid<T(!new)>(key: T -> string)
    ensures Valid(ComparingString(key))
  {
    var cmp := ComparingString(key);
    forall a, b ensures cmp(a, b) <= 0 <==> cmp(b, a) >= 0 {
      CompareStringsAntisymmetric(key(a), key(b));
    }
    forall a, b, c | cmp(a, b) <= 0 && cmp(b, c) <= 0 ensures cmp(a, c) <= 0 {
      CompareStringsTransitive(key(a), key(b), key(c));
    }
  }

  lemma CompareIgnoreCaseValid()
    ensures Valid(CompareIgnoreCase)
  {
    ComparingStringValid(LowerAscii);
    assert forall a, b :: CompareIgnoreCase(a, b) == ComparingString(LowerAscii)(a, b);
  }

  lemma ReversedValid<T(!new)>(cmp: Comparator<T>)
    requires Valid(cmp)
    ensures Valid(Reversed(cmp))
  {
  }

  /** If cmp and other are valid, so is cmp.thenComparing(other): cmp decides
      first, and other only among the elements cmp considers equal. */
  lemma ThenComparingValid<T(!new)>(cmp: Comparator<T>, other: Comparator<T>)
    requires Valid(cmp) && Valid(other)
    ensures Valid(ThenComparing(cmp, other))
  {
    var t := ThenComparing(cmp, other);
    forall a, b, c | t(a, b) <= 0 && t(b, c) <= 0 ensures t(a, c) <= 0 {
      assert cmp(a, b) <= 0 && cmp(b, c) <= 0;
      if cmp(a, c) == 0 {
        // a ties with c, so b ties with both of them
        assert cmp(c, a) <= 0;
        assert cmp(b, a) <= 0 && cmp(c, b) <= 0;
        assert cmp(a, b) == 0 && cmp(b, c) == 0;
      }
    }
  }
}
