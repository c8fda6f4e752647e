/**
 * Chapter 5's StreamDemo: filtering, slicing, mapping, flattening, finding,
 * matching and reducing streams over the menu and over small lists of
 * numbers, with the loops the stream chains replace, the numeric streams
 * and the infinite streams built with Stream.iterate.
 */
module Chap5StreamDemo {
  import opened Functions
  import opened Dishes
  import opened Streams
  import Chap3Lambda

  // ---------------------------------------------------------------------
  // external and internal iteration

  /** The external iteration: a loop adding every vegetarian dish to a
      fresh list. It builds what filter(Dish::isVegetarian) collects. */
  method VegetarianDishes(menu: seq<Dish>) returns (vegetarianDishes: seq<Dish>)
    ensures vegetarianDishes == Filter(menu, IsVegetarian)
  {
    vegetarianDishes := [];
    for i := 0 to |menu|
      invariant vegetarianDishes == Filter(menu[..i], IsVegetarian)
    {
      assert menu[..i + 1] == menu[..i] + [menu[i]];
      FilterSnoc(menu[..i], menu[i], IsVegetarian);
      if menu[i].vegetarian {
        vegetarianDishes := vegetarianDishes + [menu[i]];
      }
    }
    assert menu[..|menu|] == menu;
  }

  lemma VegetarianDishesOfMenu()
    ensures Filter(Menu, IsVegetarian) == [Menu[3], Menu[4], Menu[5], Menu[6]]
  {
  }

  /** On the example menu: french fries, rice, season fruit and pizza. */
  lemma VegetarianMenu()
    ensures Filter(Menu, IsVegetarian) == [Menu[3], Menu[4], Menu[5], Menu[6]]
    ensures Map(Filter(Menu, IsVegetarian), Name) == ["french fries", "rice", "season fruit", "pizza"]
  {
    VegetarianDishesOfMenu();
    var veg := [Menu[3], Menu[4], Menu[5], Menu[6]];
    assert Map(veg, Name) == [Menu[3].name, Menu[4].name, Menu[5].name, Menu[6].name];
  }

  // ---------------------------------------------------------------------
  // filtering and slicing

  /** number -> number % 2 == 0; Java's remainder and Dafny's agree on
      whether it is zero. */
  predicate IsEven(n: int) { n % 2 == 0 }

  const Numbers: seq<int> := [1, 2, 1, 3, 3, 2, 4]

  /** filter(even).distinct() on [1, 2, 1, 3, 3, 2, 4] passes on 2 and 4. */
  lemma EvenDistinctNumbers()
    ensures Filter(Numbers, IsEven) == [2, 2, 4]
    ensures Distinct(Filter(Numbers, IsEven)) == [2, 4]
  {
    assert Filter(Numbers, IsEven) == [2, 2, 4];
    assert [2] + [4] == [2, 4] && [2] + [2, 4] == [2, 2, 4];
    DistinctFromCons(4, [], {2}, {2, 4});
    DistinctFromCons(2, [4], {2}, {2});
    DistinctFromCons(2, [2, 4], {}, {2});
  }

  /** The meat dishes: dish.getType() == Dish.Type.MEAT. */
  predicate IsMeat(d: Dish) { d.kind == Meat }

  /** The dishes of more than 300 calories, in menu order: every dish but
      season fruit (120) and prawns (exactly 300). */
  lemma HighCaloricDishesOfMenu()
    ensures Filter(Menu, IsHighCaloric) == [Menu[0], Menu[1], Menu[2], Menu[3], Menu[4], Menu[6], Menu[8]]
  {
  }

  /** limit(3) keeps pork, beef and chicken; skip(2) drops exactly the two
      that limit(2) keeps: pork and beef. */
  lemma ThreeDishesAndSkip2Dishes()
    ensures Limit(Filter(Menu, IsHighCaloric), 3) == [Menu[0], Menu[1], Menu[2]]
    ensures Skip(Filter(Menu, IsHighCaloric), 2) == [Menu[2], Menu[3], Menu[4], Menu[6], Menu[8]]
    ensures Limit(Filter(Menu, IsHighCaloric), 2) == [Menu[0], Menu[1]]
  {
    HighCaloricDishesOfMenu();
    var high := [Menu[0], Menu[1], Menu[2], Menu[3], Menu[4], Menu[6], Menu[8]];
    assert high[..3] == [Menu[0], Menu[1], Menu[2]];
    assert high[..2] == [Menu[0], Menu[1]];
    assert high[2..] == [Menu[2], Menu[3], Menu[4], Menu[6], Menu[8]];
  }

  /** Quiz 5.1: the first two meat dishes are pork and beef. */
  lemma FirstTwoMeatDishes()
    ensures Limit(Filter(Menu, IsMeat), 2) == [Menu[0], Menu[1]]
  {
    assert Filter(Menu, IsMeat) == [Menu[0], Menu[1], Menu[2]];
    assert [Menu[0], Menu[1], Menu[2]][..2] == [Menu[0], Menu[1]];
  }

  // ---------------------------------------------------------------------
  // mapping

  /** map(Dish::getName).map(String::length) is one map of the composed
      function, and on the menu it gives the lengths of the nine names. */
  lemma LengthDishNames()
    ensures Map(Map(Menu, Name), Chap3Lambda.Length) == Map(Menu, AndThen(Name, Chap3Lambda.Length))
    ensures Map(Map(Menu, Name), Chap3Lambda.Length) == [4, 4, 7, 12, 4, 12, 5, 6, 6]
  {
    MapFusion(Menu, Name, Chap3Lambda.Length);
    DishNames();
    NameLengths();
  }

  lemma DishNames()
    ensures Map(Menu, Name)
         == ["pork", "beef", "chicken", "french fries", "rice", "season fruit", "pizza", "prawns", "salmon"]
  {
  }

  lemma NameLengths()
    ensures Map(["pork", "beef", "chicken", "french fries", "rice", "season fruit", "pizza", "prawns", "salmon"],
                Chap3Lambda.Length)
         == [4, 4, 7, 12, 4, 12, 5, 6, 6]
  {
  }

  /** word.split(""): the one-character strings of a non-empty word; the
      empty word splits into the one empty string. */
  function SplitIntoLetters(word: string): (r: seq<string>)
    ensures word != [] ==> |r| == |word| && forall i :: 0 <= i < |word| ==> r[i] == [word[i]]
    ensures word == [] ==> r == [""]
  {
    if word == [] then [""] else Letters(word)
  }

  function Letters(word: string): (r: seq<string>)
    ensures |r| == |word| && forall i :: 0 <= i < |word| ==> r[i] == [word[i]]
  {
    if word == [] then [] else [[word[0]]] + Letters(word[1..])
  }

  const Words: seq<string> := ["Goodbye", "World"]

  /** map(split("")).flatMap(Arrays::stream).distinct(): the letters of
      "Goodbye" and "World", each once, in order of first appearance. */
  lemma UniqueLetters()
    ensures Distinct(FlatMap(Words, SplitIntoLetters))
         == ["G", "o", "d", "b", "y", "e", "W", "r", "l"]
  {
    LettersOfWords();
    DistinctLetters();
  }

  lemma DistinctLetters()
    ensures DistinctFrom(["G", "o", "o", "d", "b", "y", "e"] + ["W", "o", "r", "l", "d"], {})
         == ["G", "o", "d", "b", "y", "e"] + ["W", "r", "l"]
  {
    DistinctFromConcat(["G", "o", "o", "d", "b", "y", "e"], ["W", "o", "r", "l", "d"], {});
    LettersOfGoodbye();
    DistinctGoodbye();
    DistinctWorld();
  }

  lemma LettersOfWords()
    ensures FlatMap(Words, SplitIntoLetters)
         == ["G", "o", "o", "d", "b", "y", "e"] + ["W", "o", "r", "l", "d"]
  {
    LettersOfGoodbyeWord();
    LettersOfWorld();
    assert Words[1..] == ["World"];
  }

  lemma LettersOfGoodbyeWord()
    ensures SplitIntoLetters("Goodbye") == ["G", "o", "o", "d", "b", "y", "e"]
  {
  }

  lemma LettersOfWorld()
    ensures SplitIntoLetters("World") == ["W", "o", "r", "l", "d"]
  {
  }

  lemma LettersOfGoodbye()
    ensures {} + ToSet(["G", "o", "o", "d", "b", "y", "e"]) == {"G", "o", "d", "b", "y", "e"}
  {
  }

  lemma DistinctGoodbye()
    ensures DistinctFrom(["G", "o", "o", "d", "b", "y", "e"], {}) == ["G", "o", "d", "b", "y", "e"]
  {
    assert ["G", "o", "o", "d", "b", "y", "e"] == ["G"] + (["o"] + (["o"] + ["d", "b", "y", "e"]));
    DistinctGoodbyeTail();
    DistinctFromCons("o", ["d", "b", "y", "e"], {"G", "o"}, {"G", "o"});
    DistinctFromCons("o", ["o", "d", "b", "y", "e"], {"G"}, {"G", "o"});
    DistinctFromCons("G", ["o", "o", "d", "b", "y", "e"], {}, {"G"});
  }

  lemma DistinctGoodbyeTail()
    ensures DistinctFrom(["d", "b", "y", "e"], {"G", "o"}) == ["d", "b", "y", "e"]
  {
    assert ["d", "b", "y", "e"] == ["d"] + (["b"] + (["y"] + ["e"]));
    DistinctFromCons("e", [], {"G", "o", "d", "b", "y"}, {"G", "o", "d", "b", "y", "e"});
    DistinctFromCons("y", ["e"], {"G", "o", "d", "b"}, {"G", "o", "d", "b", "y"});
    DistinctFromCons("b", ["y", "e"], {"G", "o", "d"}, {"G", "o", "d", "b"});
    DistinctFromCons("d", ["b", "y", "e"], {"G", "o"}, {"G", "o", "d"});
  }

  lemma DistinctWorld()
    ensures DistinctFrom(["W", "o", "r", "l", "d"], {"G", "o", "d", "b", "y", "e"}) == ["W", "r", "l"]
  {
    var s := ["W", "o", "r", "l", "d"];
    assert s == ["W"] + (["o"] + (["r"] + (["l"] + ["d"])));
    var seen := {"G", "o", "d", "b", "y", "e"};
    DistinctFromCons("d", [], seen + {"W", "r", "l"}, seen + {"W", "r", "l"});
    DistinctFromCons("l", ["d"], seen + {"W", "r"}, seen + {"W", "r", "l"});
    DistinctFromCons("r", ["l", "d"], seen + {"W"}, seen + {"W", "r"});
    DistinctFromCons("o", ["r", "l", "d"], seen + {"W"}, seen + {"W"});
    DistinctFromCons("W", ["o", "r", "l", "d"], seen, seen + {"W"});
  }

  /** i -> i * i */
  function Square(i: int): int { i * i }

  /** Quiz 5.2, 1: the squares of [1, 2, 3, 4, 5]. */
  lemma NumberSquares()
    ensures Map([1, 2, 3, 4, 5], Square) == [1, 4, 9, 16, 25]
  {
  }

  // ---------------------------------------------------------------------
  // pairs

  /** j -> new int[]{i, j} */
  function PairWith(i: int): (f: int -> (int, int))
    ensures forall j :: f(j) == (i, j)
  {
    j => (i, j)
  }

  /** i -> list2.stream().map(j -> new int[]{i, j}) */
  function PairsWith(list2: seq<int>): (f: int -> seq<(int, int)>)
    ensures forall i :: f(i) == Map(list2, PairWith(i))
  {
    i => Map(list2, PairWith(i))
  }

  /** list1.stream().flatMap(i -> list2.stream().map(j -> new int[]{i, j})):
      every i of list1 paired with every j of list2. */
  function PairsOf(list1: seq<int>, list2: seq<int>): seq<(int, int)>
  {
    FlatMap(list1, PairsWith(list2))
  }

  lemma {:induction false} PairsOfLength(list1: seq<int>, list2: seq<int>)
    ensures |PairsOf(list1, list2)| == |list1| * |list2|
  {
    if list1 != [] {
      PairsOfLength(list1[1..], list2);
      assert |list1| * |list2| == |list2| + (|list1| - 1) * |list2|;
    }
  }

  /** The pairs come outer element first, then inner element: the pair of
      list1[i] and list2[j] sits at position i * |list2| + j. */
  lemma {:induction false} PairsOfOrder(list1: seq<int>, list2: seq<int>, i: int, j: int)
    requires 0 <= i < |list1| && 0 <= j < |list2|
    ensures i * |list2| + j < |PairsOf(list1, list2)|
    ensures PairsOf(list1, list2)[i * |list2| + j] == (list1[i], list2[j])
  {
    var n := |list2|;
    var head := Map(list2, PairWith(list1[0]));
    var tail := PairsOf(list1[1..], list2);
    assert PairsOf(list1, list2) == head + tail;
    PairsOfLength(list1, list2);
    if i > 0 {
      PairsOfOrder(list1[1..], list2, i - 1, j);
      assert i * n + j == n + ((i - 1) * n + j);
      assert list1[i] == list1[1..][i - 1];
    }
  }

  const List1: seq<int> := [1, 2, 3]
  const List2: seq<int> := [3, 4]

  lemma NumberPairs()
    ensures PairsOf(List1, List2) == [(1, 3), (1, 4), (2, 3), (2, 4), (3, 3), (3, 4)]
  {
  }

  /** The decimal digit d. */
  function Digit(d: int): char
    requires 0 <= d < 10
  {
    ('0' as int + d) as char
  }

  /** The decimal notation of n, as string concatenation writes an int. */
  function NatToString(n: nat): (r: string)
    ensures |r| >= 1
  {
    if n < 10 then [Digit(n)] else NatToString(n / 10) + [Digit(n % 10)]
  }

  /** The notation is made of decimal digits only, and has no leading zero
      unless it is "0". */
  lemma {:induction false} NatToStringDigits(n: nat)
    ensures forall k :: 0 <= k < |NatToString(n)| ==> '0' <= NatToString(n)[k] <= '9'
    ensures NatToString(n)[0] == '0' <==> n == 0
  {
    if n >= 10 {
      NatToStringDigits(n / 10);
    }
  }

  function IntToString(n: int): string
  {
    if n < 0 then "-" + NatToString(-n) else NatToString(n)
  }

  /** Reading decimal digits back, most significant first. */
  function ParseDigits(s: string): int
  {
    if s == [] then 0 else 10 * ParseDigits(s[..|s| - 1]) + (s[|s| - 1] as int - '0' as int)
  }

  function ParseInt(s: string): int
  {
    if s != [] && s[0] == '-' then -ParseDigits(s[1..]) else ParseDigits(s)
  }

  lemma {:induction false} NatToStringRoundTrip(n: nat)
    ensures ParseDigits(NatToString(n)) == n
  {
    if n >= 10 {
      NatToStringRoundTrip(n / 10);
      var r := NatToString(n);
      assert r[..|r| - 1] == NatToString(n / 10);
    }
  }

  /** The decimal notation determines the number: it reads back as it was
      written. */
  lemma IntToStringRoundTrip(n: int)
    ensures ParseInt(IntToString(n)) == n
  {
    if n < 0 {
      NatToStringRoundTrip(-n);
      assert ("-" + NatToString(-n))[1..] == NatToString(-n);
    } else {
      NatToStringRoundTrip(n);
      NatToStringDigits(n);
    }
  }

  /** "(" + numberPair[0] + ", " + numberPair[1] + ")" */
  function PairToString(p: (int, int)): string
  {
    "(" + IntToString(p.0) + ", " + IntToString(p.1) + ")"
  }

  /** The loop over numberPairs: one line per pair, in order. */
  method FormatPairs(numberPairs: seq<(int, int)>) returns (pairs: seq<string>)
    ensures pairs == Map(numberPairs, PairToString)
  {
    pairs := [];
    for i := 0 to |numberPairs|
      invariant pairs == Map(numberPairs[..i], PairToString)
    {
      assert numberPairs[..i + 1] == numberPairs[..i] + [numberPairs[i]];
      MapSnoc(numberPairs[..i], numberPairs[i], PairToString);
      pairs := pairs + [PairToString(numberPairs[i])];
    }
    assert numberPairs[..|numberPairs|] == numberPairs;
  }

  /** (numberPair[0] + numberPair[1]) % 3 == 0 */
  predicate SumDivisibleBy3(p: (int, int)) { (p.0 + p.1) % 3 == 0 }

  /** Method 2's loop: formats only the pairs whose sum is divisible by 3. */
  method FormatPairsWithSumDivisibleBy3(numberPairs: seq<(int, int)>) returns (pairs3: seq<string>)
    ensures pairs3 == Map(Filter(numberPairs, SumDivisibleBy3), PairToString)
  {
    pairs3 := [];
    for i := 0 to |numberPairs|
      invariant pairs3 == Map(Filter(numberPairs[..i], SumDivisibleBy3), PairToString)
    {
      assert numberPairs[..i + 1] == numberPairs[..i] + [numberPairs[i]];
      FilterSnoc(numberPairs[..i], numberPairs[i], SumDivisibleBy3);
      MapSnoc(Filter(numberPairs[..i], SumDivisibleBy3), numberPairs[i], PairToString);
      if (numberPairs[i].0 + numberPairs[i].1) % 3 == 0 {
        pairs3 := pairs3 + [PairToString(numberPairs[i])];
      }
    }
    assert numberPairs[..|numberPairs|] == numberPairs;
  }

  /** j -> (i + j) % 3 == 0 */
  function SumWithDivisibleBy3(i: int): (p: int -> bool)
    ensures forall j :: p(j) == ((i + j) % 3 == 0)
  {
    j => (i + j) % 3 == 0
  }

  /** i -> list2.stream().filter(j -> (i + j) % 3 == 0).map(j -> new int[]{i, j}) */
  function FilteredPairsWith(list2: seq<int>): (f: int -> seq<(int, int)>)
    ensures forall i :: f(i) == Map(Filter(list2, SumWithDivisibleBy3(i)), PairWith(i))
  {
    i => Map(Filter(list2, SumWithDivisibleBy3(i)), PairWith(i))
  }

  /** Method 1: the filter runs inside the flatMap, on the inner list. */
  function PairsWithSumDivisibleBy3(list1: seq<int>, list2: seq<int>): seq<(int, int)>
  {
    FlatMap(list1, FilteredPairsWith(list2))
  }

  /** Filtering inside the flatMap gives the pairs that filtering all pairs
      afterwards gives, in the same order. */
  lemma PairsFilteredInsideOrAfter(list1: seq<int>, list2: seq<int>)
    ensures PairsWithSumDivisibleBy3(list1, list2) == Filter(PairsOf(list1, list2), SumDivisibleBy3)
  {
    forall i | i in list1
      ensures FilteredPairsWith(list2)(i) == Filter(PairsWith(list2)(i), SumDivisibleBy3)
    {
      FilterMap(list2, PairWith(i), SumDivisibleBy3);
      FilterExtensional(list2, AndThen(PairWith(i), SumDivisibleBy3), SumWithDivisibleBy3(i));
    }
    FilterFlatMap(list1, PairsWith(list2), SumDivisibleBy3, FilteredPairsWith(list2));
  }

  /** The three printed lists: all six pairs, and twice (2, 4) and (3, 3). */
  method PairLists() returns (pairs: seq<string>, pairs2: seq<string>, pairs3: seq<string>)
    ensures pairs == ["(1, 3)", "(1, 4)", "(2, 3)", "(2, 4)", "(3, 3)", "(3, 4)"]
    ensures pairs2 == ["(2, 4)", "(3, 3)"] && pairs3 == pairs2
  {
    NumberPairs();
    pairs := FormatPairs(PairsOf(List1, List2));
    pairs2 := FormatPairs(PairsWithSumDivisibleBy3(List1, List2));
    pairs3 := FormatPairsWithSumDivisibleBy3(PairsOf(List1, List2));
    PairsFilteredInsideOrAfter(List1, List2);
    FormattedPairs();
  }

  lemma FormattedPairs()
    ensures Map([(1, 3), (1, 4), (2, 3), (2, 4), (3, 3), (3, 4)], PairToString)
         == ["(1, 3)", "(1, 4)", "(2, 3)", "(2, 4)", "(3, 3)", "(3, 4)"]
    ensures Filter([(1, 3), (1, 4), (2, 3), (2, 4), (3, 3), (3, 4)], SumDivisibleBy3) == [(2, 4), (3, 3)]
    ensures Map([(2, 4), (3, 3)], PairToString) == ["(2, 4)", "(3, 3)"]
  {
    FormattedAllPairs();
    FilteredAllPairs();
    FormattedFilteredPairs();
  }

  lemma FormattedAllPairs()
    ensures Map([(1, 3), (1, 4), (2, 3), (2, 4), (3, 3), (3, 4)], PairToString)
         == ["(1, 3)", "(1, 4)", "(2, 3)", "(2, 4)", "(3, 3)", "(3, 4)"]
  {
    PairOfDigitsToString(1, 3);
    PairOfDigitsToString(1, 4);
    PairOfDigitsToString(2, 3);
    PairOfDigitsToString(2, 4);
    PairOfDigitsToString(3, 3);
    PairOfDigitsToString(3, 4);
  }

  lemma FilteredAllPairs()
    ensures Filter([(1, 3), (1, 4), (2, 3), (2, 4), (3, 3), (3, 4)], SumDivisibleBy3) == [(2, 4), (3, 3)]
  {
  }

  lemma FormattedFilteredPairs()
    ensures Map([(2, 4), (3, 3)], PairToString) == ["(2, 4)", "(3, 3)"]
  {
    PairOfDigitsToString(2, 4);
    PairOfDigitsToString(3, 3);
  }

  /** A pair of one-digit numbers prints as "(a, b)". */
  lemma PairOfDigitsToString(a: int, b: int)
    requires 0 <= a < 10 && 0 <= b < 10
    ensures PairToString((a, b)) == ['(', Digit(a), ',', ' ', Digit(b), ')']
  {
    assert IntToString(a) == [Digit(a)] && IntToString(b) == [Digit(b)];
  }

  // ---------------------------------------------------------------------
  // finding and matching

  /** dish -> dish.getCalories() < 1000 */
  predicate IsHealthy(d: Dish) { d.calories < 1000 }

  /** dish -> dish.getCalories() >= 1000 */
  predicate IsUnhealthy(d: Dish) { d.calories >= 1000 }

  /** allMatch(calories < 1000) and noneMatch(calories >= 1000) ask the same
      question of any menu, since each predicate is the other's negation. */
  lemma HealthyChecksAgree(menu: seq<Dish>)
    ensures AllMatch(menu, IsHealthy) == NoneMatch(menu, IsUnhealthy)
  {
  }

  /** On the example menu: some dish is vegetarian, every dish is below
      1000 calories, and findAny on the vegetarian dishes finds french
      fries. */
  lemma MatchingOfMenu()
    ensures AnyMatch(Menu, IsVegetarian)
    ensures AllMatch(Menu, IsHealthy) && NoneMatch(Menu, IsUnhealthy)
    ensures FindFirst(Filter(Menu, IsVegetarian)) == Some(Menu[3])
    ensures Menu[3].name == "french fries"
  {
    VegetarianDishesOfMenu();
    AnyMatchFindFirst(Menu, IsVegetarian);
    MenuIsHealthy();
  }

  lemma MenuIsHealthy()
    ensures AllMatch(Menu, IsHealthy)
  {
    assert forall i :: 0 <= i < |Menu| ==> Menu[i].calories <= 800;
  }

  /** x -> x % 3 == 0 */
  predicate IsDivisibleBy3(x: int) { x % 3 == 0 }

  /** map(x -> x * x).filter(x % 3 == 0).findFirst() on 1..9: 9. */
  lemma FirstSquareDivisibleBy3()
    ensures FindFirst(Filter(Map([1, 2, 3, 4, 5, 6, 7, 8, 9], Square), IsDivisibleBy3)) == Some(9)
  {
    SquaresUpTo9();
    SquaresDivisibleBy3();
  }

  /** 1 and 4 are dropped and 9 passes; findFirst looks no further. */
  lemma SquaresDivisibleBy3()
    ensures Filter([1, 4, 9, 16, 25, 36, 49, 64, 81], IsDivisibleBy3)
         == [9] + Filter([16, 25, 36, 49, 64, 81], IsDivisibleBy3)
  {
    var s := [1, 4, 9, 16, 25, 36, 49, 64, 81];
    assert s[1..] == [4, 9, 16, 25, 36, 49, 64, 81];
    assert s[1..][1..] == [9, 16, 25, 36, 49, 64, 81];
    assert s[1..][1..][1..] == [16, 25, 36, 49, 64, 81];
  }

  lemma SquaresUpTo9()
    ensures Map([1, 2, 3, 4, 5, 6, 7, 8, 9], Square) == [1, 4, 9, 16, 25, 36, 49, 64, 81]
  {
  }

  // ---------------------------------------------------------------------
  // reducing

  /** The accumulator loop: sum += integer for each element. It computes
      reduce(0, Integer::sum). */
  method Sum(integers: seq<int>) returns (sum: int)
    ensures sum == Reduce(integers, 0, Add)
  {
    sum := 0;
    for i := 0 to |integers|
      invariant sum == Reduce(integers[..i], 0, Add)
    {
      assert integers[..i + 1] == integers[..i] + [integers[i]];
      ReduceSnoc(integers[..i], integers[i], 0, Add);
      sum := sum + integers[i];
    }
    assert integers[..|integers|] == integers;
  }

  const Integers: seq<int> := [1, 2, 3, 4, 5]

  /** On [1, 2, 3, 4, 5]: the sum 15, with and without an identity, the
      maximum 5, the minimum 1 and the product 120. */
  lemma ReductionsOfIntegers()
    ensures Reduce(Integers, 0, Add) == 15
    ensures ReduceOptional(Integers, Add) == Some(15)
    ensures ReduceOptional(Integers, Max) == Some(5)
    ensures ReduceOptional(Integers, Min) == Some(1)
    ensures Reduce(Integers, 1, Mul) == 120
  {
    SumOfIntegers();
    ReduceOptionalWithIdentity(Integers, 0, Add);
    MaxMinOfIntegers();
    ProductOfIntegers();
  }

  lemma SumOfIntegers()
    ensures Reduce(Integers, 0, Add) == 15
  {
    ReduceAssociative(Integers, 0, 0, Add);
  }

  lemma MaxMinOfIntegers()
    ensures ReduceOptional(Integers, Max) == Some(5)
    ensures ReduceOptional(Integers, Min) == Some(1)
  {
    ReduceMaxMin(Integers);
  }

  lemma ProductOfIntegers()
    ensures Reduce(Integers, 1, Mul) == 120
  {
    assert Integers[1..] == [2, 3, 4, 5] && [2, 3, 4, 5][1..] == [3, 4, 5];
    assert [3, 4, 5][1..] == [4, 5] && [4, 5][1..] == [5] && [5][1..] == [];
    assert Reduce(Integers, 1, Mul) == Reduce([2, 3, 4, 5], 1, Mul);
    assert Reduce([2, 3, 4, 5], 1, Mul) == Reduce([3, 4, 5], 2, Mul);
    assert Reduce([3, 4, 5], 2, Mul) == Reduce([4, 5], 6, Mul);
    assert Reduce([4, 5], 6, Mul) == Reduce([5], 24, Mul);
    assert Reduce([5], 24, Mul) == Reduce([], 120, Mul);
  }

  /** The loop and both reduce forms agree on the example list. */
  method Sums() returns (sum: int, sum2: int, sumOptional: Option<int>)
    ensures sum == 15 && sum2 == sum && sumOptional == Some(sum)
  {
    sum := Sum(Integers);
    sum2 := Reduce(Integers, 0, Add);
    sumOptional := ReduceOptional(Integers, Add);
    ReductionsOfIntegers();
  }

  /** Quiz 5.3: map(d -> 1).reduce(0, Integer::sum) is count(), 9 on the
      example menu. */
  lemma CountOfMenu()
    ensures Reduce(Map(Menu, (_: Dish) => 1), 0, Add) == Count(Menu) == 9
  {
    MapOneSumIsCount(Menu);
  }

  // ---------------------------------------------------------------------
  // numeric streams

  /** map(Dish::getCalories).reduce(0, Integer::sum) and
      mapToInt(Dish::getCalories).sum(): 4200 calories in all. */
  lemma CaloriesOfMenu()
    ensures Reduce(Map(Menu, Calories), 0, Add) == 4200
  {
    MenuCalories();
    SumOfCalories();
  }

  const MenuCalorieList: seq<int> := [800, 700, 400, 530, 350, 120, 550, 300, 450]

  lemma SumOfCalories()
    ensures Reduce(MenuCalorieList, 0, Add) == 4200
  {
    var s := MenuCalorieList;
    assert Reduce(s[9..], 4200, Add) == 4200;
    assert Reduce(s[8..], 3750, Add) == 4200;
    assert Reduce(s[7..], 3450, Add) == 4200;
    assert Reduce(s[6..], 2900, Add) == 4200;
    assert Reduce(s[5..], 2780, Add) == 4200;
    assert Reduce(s[4..], 2430, Add) == 4200;
    assert Reduce(s[3..], 1900, Add) == 4200;
    assert Reduce(s[2..], 1500, Add) == 4200;
    assert Reduce(s[1..], 800, Add) == 4200;
    assert Reduce(s[0..], 0, Add) == 4200;
    assert s[0..] == s;
  }

  lemma MaxOfCalories()
    ensures ReduceOptional(MenuCalorieList, Max) == Some(800)
  {
    ReduceMaxMin(MenuCalorieList);
  }

  lemma MenuCalories()
    ensures Map(Menu, Calories) == MenuCalorieList
  {
  }

  /** mapToInt(Dish::getCalories).max().orElse(1): 800. */
  lemma MaxCalorieOfMenu()
    ensures OrElse(ReduceOptional(Map(Menu, Calories), Max), 1) == 800
  {
    MenuCalories();
    MaxOfCalories();
  }

  /** rangeClosed(1, 2n).filter(even).count() is n. */
  lemma {:induction false} EvensUpTo(n: nat)
    ensures Count(Filter(RangeClosed(1, 2 * n), IsEven)) == n
  {
    if n > 0 {
      EvensUpTo(n - 1);
      var r := RangeClosed(1, 2 * n - 2);
      assert RangeClosed(1, 2 * n) == r + [2 * n - 1, 2 * n] by {
        RangeClosedSnoc(1, 2 * n - 2);
        RangeClosedSnoc(1, 2 * n - 1);
      }
      EvensStep(r, n);
    }
  }

  /** Appending 2n - 1 and 2n adds one even number. */
  lemma EvensStep(r: seq<int>, n: nat)
    requires n > 0
    ensures Count(Filter(r + [2 * n - 1, 2 * n], IsEven)) == Count(Filter(r, IsEven)) + 1
  {
    FilterConcat(r, [2 * n - 1, 2 * n], IsEven);
    OddThenEven(n);
  }

  /** Of 2n - 1 and 2n, only the second is even. */
  lemma OddThenEven(n: nat)
    requires n > 0
    ensures Filter([2 * n - 1, 2 * n], IsEven) == [2 * n]
  {
    var m := 2 * n;
    assert !IsEven(m - 1) && IsEven(m);
    assert [m - 1, m][1..] == [m];
  }

  /** rangeClosed(1, 100) holds 50 even numbers. */
  lemma EvenNumbers()
    ensures Count(Filter(RangeClosed(1, 100), IsEven)) == 50
  {
    EvensUpTo(50);
  }

  // ---------------------------------------------------------------------
  // streams from values

  /** Character.toUpperCase for ASCII letters. */
  function ToUpperAscii(c: char): char
  {
    if 'a' <= c <= 'z' then (c as int - 32) as char else c
  }

  /** String::toUpperCase for ASCII text: the same length, every lower-case
      letter raised and every other character kept. */
  function UpperCase(s: string): (r: string)
    ensures |r| == |s|
    ensures forall i :: 0 <= i < |s| ==> r[i] == ToUpperAscii(s[i])
  {
    if s == [] then [] else [ToUpperAscii(s[0])] + UpperCase(s[1..])
  }

  /** Stream.of("Java 8", "in", "action").map(String::toUpperCase) */
  lemma UpperCaseWords()
    ensures Map(["Java 8", "in", "action"], UpperCase) == ["JAVA 8", "IN", "ACTION"]
  {
    assert UpperCase("Java 8") == "JAVA 8";
    assert UpperCase("in") == "IN";
    assert UpperCase("action") == "ACTION";
  }

  // ---------------------------------------------------------------------
  // infinite streams

  /** t -> t + 2 */
  function AddTwo(t: int): int { t + 2 }

  lemma {:induction false} ApplyAddTwo(x: int, k: nat)
    ensures ApplyN(AddTwo, x, k) == x + 2 * k
    decreases k
  {
    if k > 0 {
      ApplyAddTwo(AddTwo(x), k - 1);
    }
  }

  /** iterate(0, t -> t + 2).limit(n): the first n even numbers. */
  lemma IterateEvens(n: nat)
    ensures forall k :: 0 <= k < n ==> IterateLimit(0, AddTwo, n)[k] == 2 * k
  {
    forall k | 0 <= k < n ensures IterateLimit(0, AddTwo, n)[k] == 2 * k {
      ApplyAddTwo(0, k);
    }
  }

  lemma FirstFiveEvens()
    ensures IterateLimit(0, AddTwo, 5) == [0, 2, 4, 6, 8]
  {
  }

  function Fib(k: nat): nat
  {
    if k < 2 then k else Fib(k - 1) + Fib(k - 2)
  }

  /** t -> new int[]{t[1], t[0] + t[1]} */
  function FibStep(t: (int, int)): (int, int)
  {
    (t.1, t.0 + t.1)
  }

  lemma {:induction false} ApplyFibStep(j: nat, k: nat)
    ensures ApplyN(FibStep, (Fib(j), Fib(j + 1)), k) == (Fib(j + k), Fib(j + k + 1))
    decreases k
  {
    if k > 0 {
      assert FibStep((Fib(j), Fib(j + 1))) == (Fib(j + 1), Fib(j + 2));
      ApplyFibStep(j + 1, k - 1);
    }
  }

  /** Quiz 5.4: the k-th tuple of iterate(new int[]{0, 1}, FibStep) is the
      pair of the k-th and (k + 1)-th Fibonacci numbers. */
  lemma FibonacciTuples(n: nat)
    ensures forall k :: 0 <= k < n ==> IterateLimit((0, 1), FibStep, n)[k] == (Fib(k), Fib(k + 1))
  {
    forall k | 0 <= k < n ensures IterateLimit((0, 1), FibStep, n)[k] == (Fib(k), Fib(k + 1)) {
      ApplyFibStep(0, k);
    }
  }

  /** n -> n[0] */
  function First(t: (int, int)): int { t.0 }

  /** The first components of the ten tuples: 0, 1, 1, 2, 3, 5, 8, 13, 21, 34. */
  lemma FirstTenFibonacci()
    ensures Map(IterateLimit((0, 1), FibStep, 10), First) == [0, 1, 1, 2, 3, 5, 8, 13, 21, 34]
  {
    assert IterateLimit((0, 1), FibStep, 10)
        == [(0, 1), (1, 1), (1, 2), (2, 3), (3, 5), (5, 8), (8, 13), (13, 21), (21, 34), (34, 55)];
  }
}
