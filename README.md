# Java 8 in Action exercises: filtering loops and stream pipelines

This project models the collection-processing examples of a set of Java 8
teaching programs and proves what they compute.

- **Hand-written list combinators.** These are the `filter`, `map` and
  `forEach` loops of chapters 1 to 3, which append to a fresh `ArrayList`.
  They are modelled as Dafny methods with `for` loops over a `seq`. Each
  method is proved equal to a specification function.
- **`java.util.stream` operations.** The module `Streams` gives the
  sequential semantics of the stream operations the examples chain:
  `filter`, `map`, `flatMap`, `distinct`, `limit`, `skip`, `sorted`,
  `reduce` with and without an identity, `count`, `anyMatch`/`allMatch`/`noneMatch`,
  `findFirst`, `Stream.iterate(...).limit(n)` and `IntStream.rangeClosed`.
  Each is a function on a finite sequence, with lemmas for what the API
  promises: order is kept, distinct keeps first occurrences, the sort is
  stable, reduce is a left fold.
- **Predicates, functions and comparators as values.** `Functions` holds
  `negate`/`and`/`or`/`andThen`/`compose`. `Comparators` holds
  `Comparator.comparing`, `reversed`, `thenComparing`, `Integer.compare`,
  `String.compareTo` and `compareToIgnoreCase`.
- **In-place sorts.** `List.sort` and `Collections.sort` are modelled by
  `Lists.Sort`, a stable insertion sort on an `array`. It is proved to leave
  `SortBy(old(a[..]), cmp)` in the array. For a valid comparator a stable
  sort has only one possible output: `StableSortUnique` proves that every
  sorted, tie-order-preserving permutation of the input is `SortBy`. So this
  is the list the library's sort leaves.
- **The `main` programs.** Each one becomes a method or lemma over the
  literal data (the apple inventories, the nine-dish menu, the six
  transactions). It proves the results the source's comments state. The
  loop version of each pipeline is proved equal to its stream version on
  every input.

Records (`Apple`, `Dish`, `Trader`, `Transaction`) are datatypes. Java
lists are `seq`, so the inputs to the filtering loops cannot be changed by
them. The chapter-5 `Dish` class is not part of this model. It is modelled
with the fields of the chapter-4 `Dish` (name, vegetarian, calories, type).

## Model

| member | source | states |
|---|---|---|
| `Chap3Lambda.Map` | src/main/java/com/chris/chap3/Lambda.java:147-154 | the loop's result is the stream `map`: same length, i-th element is `f(list[i])` |
| `Chap3Lambda.ForEach` | src/main/java/com/chris/chap3/Lambda.java:156-160 | the consumer sees every element once, in list order (its emitted events concatenate in order) |
| `Chap3Lambda.Filter` | src/main/java/com/chris/chap3/Lambda.java:162-170 | the loop's result is the stream `filter`: exactly the elements satisfying `p`, in order |
| `Chap3Lambda.FilterAndMapWords` | src/main/java/com/chris/chap3/Lambda.java:62-73 | the non-empty strings of `["Java 8","","In","","Action"]` are `["Java 8","In","Action"]`; their lengths are `[6,0,2,0,6]` |
| `Chap3Lambda.ForEachPrint` | src/main/java/com/chris/chap3/Lambda.java:68-69 | `forEach([1..5], println)` emits 1, 2, 3, 4, 5 in order |
| `Chap3Lambda.SortLetters` | src/main/java/com/chris/chap3/Lambda.java:75-80 | sorting `[a,b,A,B]` ignoring case gives `[a,A,b,B]` (stable), then by `compareTo` gives `[A,B,a,b]` |
| `Chap3Lambda.WeightComparatorsAgree` | src/main/java/com/chris/chap3/Lambda.java:30-42 | the anonymous, lambda and `comparing(getWeight)` comparators are the same order: negative iff lighter, zero iff same weight |
| `Chap3Lambda.SortInventory` | src/main/java/com/chris/chap3/Lambda.java:82-87 | the two in-place sorts leave `[155 green, 155 red, 120 red, 80 green]` |
| `Chap3Lambda.ByWeightDescendingThenColorOrder` | src/main/java/com/chris/chap3/Lambda.java:87 | for any inventory, the chained sort is a permutation ordered by weight descending, ties by colour ascending |
| `Chap3Lambda.FilterSortedInventory` | src/main/java/com/chris/chap3/Lambda.java:89-105 | red, not-red, red-and-heavy and (red-and-heavy)-or-green filters of the sorted inventory give the listed apples |
| `Chap3Lambda.ComposedPredicates` | src/main/java/com/chris/chap3/Lambda.java:93-105 | for any inventory, `red` and `red.negate()` partition it; `red.and(heavy)` is filter-then-filter; `red.and(heavy).or(green)` selects exactly (red and >150) or green |
| `Chap3Lambda.ComposedFunctions` | src/main/java/com/chris/chap3/Lambda.java:107-122 | `f.andThen(g)(x) = 2x+2` and `f.compose(g)(x) = 2x+1`, so `h.apply(1) == 4` and `h2.apply(1) == 3` |
| `Functions.AndThenIsFlippedCompose` | src/main/java/com/chris/chap3/Lambda.java:110-119 | `f.andThen(g)` and `g.compose(f)` are the same function |
| `Functions.AndThenAssociative` | src/main/java/com/chris/chap3/Lambda.java:142 | a chain of `andThen` applies its functions left to right, however it is grouped |
| `Chap3Letter.CheckSpellingExample` | src/main/java/com/chris/chap3/Lambda.java:135-137 | `checkSpelling` replaces "labda" by "lambda" |
| `Chap3Letter.ReplaceAllAbsent` | src/main/java/com/chris/chap3/Lambda.java:136 | `replaceAll` leaves text without an occurrence of the target unchanged |
| `Chap3Letter.ReplaceAllPrefix` | src/main/java/com/chris/chap3/Lambda.java:136 | a prefix with no character that can start the target is copied unchanged |
| `Chap3Letter.Pipeline1Letter` | src/main/java/com/chris/chap3/Lambda.java:126-142 | pipeline 1 gives `"From Chris: " + checkSpelling(text) + " Kind regards"`: header first, footer last |
| `Chap3Letter.Pipeline2AsWrittenDoublesHeader` | src/main/java/com/chris/chap3/Lambda.java:143-144 | pipeline 2 as written gives the header twice and no footer, on every text |
| `Chap3Letter.Pipeline2Letter` | src/main/java/com/chris/chap3/Lambda.java:143 | the pipeline the comment names gives `header + text + footer` |
| `Comparators.CompareStrings` | src/main/java/com/chris/chap3/Lambda.java:79 | `String.compareTo` answers zero exactly for equal strings |
| `Comparators.CompareStringsValid` | src/main/java/com/chris/chap3/Lambda.java:79 | `String.compareTo` is a valid comparator: antisymmetric sign, transitive |
| `Comparators.CompareIgnoreCaseValid` | src/main/java/com/chris/chap3/Lambda.java:78 | `compareToIgnoreCase` is a valid comparator |
| `Comparators.ComparingValid` | src/main/java/com/chris/chap4/StreamDemo.java:59 | `comparing` by an int key is a valid comparator |
| `Comparators.ComparingStringValid` | src/main/java/com/chris/chap5/StreamDemo.java:281 | `comparing` by a String key is a valid comparator |
| `Comparators.ReversedValid` | src/main/java/com/chris/chap3/Lambda.java:85 | reversing a valid comparator keeps it valid |
| `Comparators.ThenComparingValid` | src/main/java/com/chris/chap3/Lambda.java:87 | `thenComparing` of two valid comparators is valid |
| `Lists.Sort` | src/main/java/com/chris/chap4/StreamDemo.java:37-42 | the in-place sort leaves `SortBy(old contents, cmp)`: the stable sort, a sorted permutation |
| `Lists.InsertIntoSortedSuffix` | src/main/java/com/chris/chap3/Lambda.java:85 | one insertion step of the in-place sort moves the element into the sorted suffix |
| `Chap1FilteringApples.FilterGreenApples` | src/main/java/com/chris/chap1/FilteringApples.java:61-69 | the loop returns `filterApples(inventory, isGreenApple)` |
| `Chap1FilteringApples.FilterHeavyApples` | src/main/java/com/chris/chap1/FilteringApples.java:71-79 | the loop returns `filterApples(inventory, isHeavyApple)`, heavy being strictly > 150 |
| `Chap1FilteringApples.FilterApples` | src/main/java/com/chris/chap1/FilteringApples.java:81-89 | the loop returns the stream filter by `p`: exactly the matching apples, in order |
| `Chap1FilteringApples.WrapInt` | src/main/java/com/chris/chap1/FilteringApples.java:27 | Java `int` subtraction wraps to the int congruent modulo 2^32 |
| `Chap1FilteringApples.SubtractWeightsAgrees` | src/main/java/com/chris/chap1/FilteringApples.java:24-29 | for non-negative weights the subtraction comparator's sign is the weight order |
| `Chap1FilteringApples.SubtractWeightsOverflows` | src/main/java/com/chris/chap1/FilteringApples.java:27 | with a negative weight the subtraction overflows and orders a heavier apple first |
| `Chap1FilteringApples.SortBySubtractionIsSortByWeight` | src/main/java/com/chris/chap1/FilteringApples.java:24-33 | for non-negative weights, sorting by subtraction equals sorting by `comparing(getWeight)` |
| `Chap1FilteringApples.SortInventory` | src/main/java/com/chris/chap1/FilteringApples.java:17-35 | both in-place sorts leave `[80 green, 120 red, 155 green]` |
| `Chap1FilteringApples.FilterInventory` | src/main/java/com/chris/chap1/FilteringApples.java:37-52 | green gives `[80 green, 155 green]`; heavy gives `[155 green]`; red and light-green filters as listed; the stream filter equals the loop |
| `Chap2FilteringApples.Filter` | src/main/java/com/chris/chap2/FilteringApples.java:55-63 | the generic loop returns exactly the matching elements in order |
| `Chap2FilteringApples.FilterGreenApples` | src/main/java/com/chris/chap2/FilteringApples.java:65-73 | the loop returns the green apples in order |
| `Chap2FilteringApples.FilterApplesByColor` | src/main/java/com/chris/chap2/FilteringApples.java:75-83 | the loop returns the apples of the given colour, in order |
| `Chap2FilteringApples.FilterApplesByWeight` | src/main/java/com/chris/chap2/FilteringApples.java:85-93 | the loop returns the apples strictly heavier than `weight`, in order |
| `Chap2FilteringApples.FilterApples` | src/main/java/com/chris/chap2/FilteringApples.java:95-103 | the loop returns the same list as the generic `filter` for the same predicate |
| `Chap2FilteringApples.AttemptsAgree` | src/main/java/com/chris/chap2/FilteringApples.java:65-111 | green loop = by colour "green"; heavy = by weight 150; red-and-heavy = red filter then weight filter, on any inventory |
| `Chap2FilteringApples.FilterInventory` | src/main/java/com/chris/chap2/FilteringApples.java:15-41 | green `[80, 155]`, red `[155, 120]`, red-and-heavy `[155 red]`; anonymous class and lambda agree |
| `Streams.Filter` | src/main/java/com/chris/chap5/StreamDemo.java:47-49 | `filter` never lengthens the stream |
| `Streams.FilterMembers` | src/main/java/com/chris/chap5/StreamDemo.java:53-56 | an element is in `filter(p)` iff it is in the stream and satisfies `p` |
| `Streams.FilterIsSubsequence` | src/main/java/com/chris/chap2/FilteringApples.java:55-63 | `filter` keeps the order: its result is a subsequence of its input |
| `Streams.FilterMultiplicity` | src/main/java/com/chris/chap1/FilteringApples.java:81-89 | each matching element is kept as often as it occurs; no other is kept |
| `Streams.FilterConcat` | src/main/java/com/chris/chap4/StreamDemo.java:74-80 | filtering a concatenation filters each part |
| `Streams.FilterSnoc` | src/main/java/com/chris/chap3/Lambda.java:164-168 | one loop step: appending an element extends the filter by it iff it matches |
| `Streams.FilterPartition` | src/main/java/com/chris/chap3/Lambda.java:94-97 | `filter(p)` and `filter(p.negate())` together hold every element exactly once |
| `Streams.FilterAnd` | src/main/java/com/chris/chap3/Lambda.java:99-100 | `filter(p.and(q))` equals `filter(p)` then `filter(q)` |
| `Streams.FilterExtensional` | src/main/java/com/chris/chap2/FilteringApples.java:29-41 | predicates that agree everywhere filter alike |
| `Streams.Map` | src/main/java/com/chris/chap5/StreamDemo.java:90-94 | `map(f)` keeps length and puts `f(s[i])` at position i |
| `Streams.MapSnoc` | src/main/java/com/chris/chap3/Lambda.java:149-152 | one loop step: appending an element appends its image |
| `Streams.MapFusion` | src/main/java/com/chris/chap5/StreamDemo.java:90-93 | `map(f).map(g)` equals `map(f.andThen(g))` |
| `Streams.FilterMap` | src/main/java/com/chris/chap5/StreamDemo.java:144-148 | filtering after a map equals mapping after filtering by the composed predicate |
| `Streams.FlatMap` | src/main/java/com/chris/chap5/StreamDemo.java:107-113 | `flatMap` holds every element of every sub-stream, and nothing else |
| `Streams.FlatMapSnoc` | src/main/java/com/chris/chap3/Lambda.java:157-159 | one step: appending an element appends its whole sub-stream |
| `Streams.FilterFlatMap` | src/main/java/com/chris/chap5/StreamDemo.java:144-168 | filtering a flattened stream equals flattening the filtered sub-streams |
| `Streams.DistinctFromMembers` | src/main/java/com/chris/chap5/StreamDemo.java:59-64 | `distinct` passes on each unseen element exactly once and nothing else |
| `Streams.DistinctKeepsFirstOccurrences` | src/main/java/com/chris/chap5/StreamDemo.java:262-268 | `distinct` lists each element once, in order of first occurrence |
| `Streams.DistinctToSet` | src/main/java/com/chris/chap5/StreamDemo.java:271-273 | `distinct` keeps the set of elements unchanged |
| `Streams.DistinctFromConcat` | src/main/java/com/chris/chap5/StreamDemo.java:107-112 | `distinct` over a concatenation handles the second part knowing the first |
| `Streams.Limit` | src/main/java/com/chris/chap5/StreamDemo.java:67-71 | `limit(n)` is a prefix of length `min(n, |s|)` |
| `Streams.Skip` | src/main/java/com/chris/chap5/StreamDemo.java:74-78 | `skip(n)` is exactly what follows `limit(n)` |
| `Streams.SortBy` | src/main/java/com/chris/chap4/StreamDemo.java:59 | `sorted` keeps the length |
| `Streams.SortByPermutation` | src/main/java/com/chris/chap4/StreamDemo.java:37-42 | `sorted` is a permutation of its input |
| `Streams.SortBySorted` | src/main/java/com/chris/chap4/StreamDemo.java:37-42 | `sorted` orders its output by any valid comparator |
| `Streams.SortByStable` | src/main/java/com/chris/chap3/Lambda.java:78 | `sorted` is stable: elements that tie keep their relative order |
| `Streams.StableSortUnique` | src/main/java/com/chris/chap3/Lambda.java:78 | for a valid comparator, any permutation of the input that is sorted and keeps each class of ties in input order is `SortBy` of the input, so every stable sort gives the same list |
| `Streams.SortByOrdered` | src/main/java/com/chris/chap1/FilteringApples.java:33 | sorting an already ordered list leaves it unchanged |
| `Streams.SortBySameSigns` | src/main/java/com/chris/chap1/FilteringApples.java:24-33 | comparators agreeing on "no later than" sort alike |
| `Streams.SortByIdempotent` | src/main/java/com/chris/chap3/Lambda.java:85-87 | sorting twice by a valid comparator is sorting once |
| `Streams.ReduceSnoc` | src/main/java/com/chris/chap5/StreamDemo.java:197-200 | `reduce(id, op)` is a left fold: appending `x` applies `op(acc, x)` |
| `Streams.ReduceOptional` | src/main/java/com/chris/chap5/StreamDemo.java:206-209 | `reduce(op)` is empty exactly on an empty stream |
| `Streams.ReduceOptionalWithIdentity` | src/main/java/com/chris/chap5/StreamDemo.java:203-207 | with an identity, `reduce(op)` on a non-empty stream is present with `reduce(id, op)` |
| `Streams.ReduceAssociative` | src/main/java/com/chris/chap5/StreamDemo.java:233-234 | for an associative op with identity, the left fold equals the right fold |
| `Streams.ReduceMaxMin` | src/main/java/com/chris/chap5/StreamDemo.java:208-209 | `reduce(max)`/`reduce(min)` are present iff the stream is non-empty, with its largest/smallest element |
| `Streams.MapOneSumIsCount` | src/main/java/com/chris/chap5/StreamDemo.java:222-228 | `map(d -> 1).reduce(0, sum)` equals `count()` |
| `Streams.ReduceConcatIsJoin` | src/main/java/com/chris/chap5/StreamDemo.java:287-301 | `reduce("", +)` builds what `joining()` builds |
| `Streams.AnyMatch` | src/main/java/com/chris/chap5/StreamDemo.java:172 | `anyMatch` iff some element satisfies `p` |
| `Streams.AllMatch` | src/main/java/com/chris/chap5/StreamDemo.java:177 | `allMatch` iff every element satisfies `p` (true on empty) |
| `Streams.NoneMatch` | src/main/java/com/chris/chap5/StreamDemo.java:178 | `noneMatch` iff no element satisfies `p` (true on empty) |
| `Streams.FindFirstOfFilter` | src/main/java/com/chris/chap5/StreamDemo.java:184-192 | `filter(p).findFirst()` is empty iff nothing matches, else the first match |
| `Streams.AnyMatchFindFirst` | src/main/java/com/chris/chap5/StreamDemo.java:306-312 | `anyMatch(p)` iff `filter(p).findAny()` is present |
| `Streams.IterateLimit` | src/main/java/com/chris/chap5/StreamDemo.java:415 | `iterate(seed, f).limit(n)` has length n and k-th element `f` applied k times to `seed` |
| `Streams.IterateLimitPrefix` | src/main/java/com/chris/chap5/StreamDemo.java:415-418 | `limit(n)` only needs the first n elements of the infinite source |
| `Streams.RangeClosed` | src/main/java/com/chris/chap5/StreamDemo.java:368 | `rangeClosed(lo, hi)` is `lo, lo+1, ..., hi` |
| `Chap4StreamDemo.CollectLowCaloricDishes` | src/main/java/com/chris/chap4/StreamDemo.java:30-35 | the first loop collects the dishes strictly below 400 calories, in order |
| `Chap4StreamDemo.CollectNames` | src/main/java/com/chris/chap4/StreamDemo.java:44-47 | the name loop is `map(Dish::getName)` of the sorted dishes |
| `Chap4StreamDemo.LowCaloricDishNamesJava7` | src/main/java/com/chris/chap4/StreamDemo.java:30-61 | the Java 7 loop/sort/loop returns the same list as the `filter/sorted/map` stream, on every menu |
| `Chap4StreamDemo.LowCaloricDishNamesSpec` | src/main/java/com/chris/chap4/StreamDemo.java:57-61 | for any menu, the names are those of the dishes below 400, a permutation, in non-decreasing calories |
| `Chap4StreamDemo.LowCaloricDishNamesOfMenu` | src/main/java/com/chris/chap4/StreamDemo.java:17-62 | on the menu, `[season fruit, prawns, rice]`; chicken (400) is excluded |
| `Chap4StreamDemo.ThreeHighCaloricDishNames` | src/main/java/com/chris/chap4/StreamDemo.java:76-80 | the result is a prefix of the filtered names, of length 3 or the whole list |
| `Chap4StreamDemo.ThreeHighCaloricDishNamesIgnoresRest` | src/main/java/com/chris/chap4/StreamDemo.java:74-80 | once three dishes pass, the rest of the menu does not affect the result |
| `Chap4StreamDemo.ThreeHighCaloricDishNamesOfMenu` | src/main/java/com/chris/chap4/StreamDemo.java:75-80 | on the menu, `[pork, beef, chicken]` |
| `Chap5StreamDemo.VegetarianDishes` | src/main/java/com/chris/chap5/StreamDemo.java:37-49 | the external-iteration loop equals `filter(isVegetarian)` |
| `Chap5StreamDemo.VegetarianMenu` | src/main/java/com/chris/chap5/StreamDemo.java:53-56 | on the menu, french fries, rice, season fruit and pizza |
| `Chap5StreamDemo.EvenDistinctNumbers` | src/main/java/com/chris/chap5/StreamDemo.java:60-64 | `filter(even).distinct()` on `[1,2,1,3,3,2,4]` gives `[2,4]` |
| `Chap5StreamDemo.ThreeDishesAndSkip2Dishes` | src/main/java/com/chris/chap5/StreamDemo.java:66-78 | `limit(3)` gives pork, beef, chicken; `skip(2)` drops exactly the two `limit(2)` keeps |
| `Chap5StreamDemo.FirstTwoMeatDishes` | src/main/java/com/chris/chap5/StreamDemo.java:80-85 | the first two meat dishes are pork and beef |
| `Chap5StreamDemo.LengthDishNames` | src/main/java/com/chris/chap5/StreamDemo.java:90-93 | `map(name).map(length)` is one composed map, `[4,4,7,12,4,12,5,6,6]` on the menu |
| `Chap5StreamDemo.SplitIntoLetters` | src/main/java/com/chris/chap5/StreamDemo.java:109 | `split("")` gives the one-character strings of a non-empty word, `[""]` for the empty one |
| `Chap5StreamDemo.UniqueLetters` | src/main/java/com/chris/chap5/StreamDemo.java:107-112 | the unique letters of Goodbye, World are G o d b y e W r l |
| `Chap5StreamDemo.NumberSquares` | src/main/java/com/chris/chap5/StreamDemo.java:118-121 | the squares of `[1..5]` are `[1,4,9,16,25]` |
| `Chap5StreamDemo.PairsOfLength` | src/main/java/com/chris/chap5/StreamDemo.java:130-133 | the pairing `flatMap` yields `|list1| * |list2|` pairs |
| `Chap5StreamDemo.PairsOfOrder` | src/main/java/com/chris/chap5/StreamDemo.java:130-133 | pair `(list1[i], list2[j])` sits at position `i*|list2|+j`: outer then inner order |
| `Chap5StreamDemo.NumberPairs` | src/main/java/com/chris/chap5/StreamDemo.java:124-133 | `[1,2,3]` with `[3,4]` gives `(1,3),(1,4),(2,3),(2,4),(3,3),(3,4)` |
| `Chap5StreamDemo.IntToStringRoundTrip` | src/main/java/com/chris/chap5/StreamDemo.java:137 | the decimal notation string concatenation writes reads back to the number |
| `Chap5StreamDemo.FormatPairs` | src/main/java/com/chris/chap5/StreamDemo.java:135-138 | the formatting loop maps each pair to `"(a, b)"`, in order |
| `Chap5StreamDemo.FormatPairsWithSumDivisibleBy3` | src/main/java/com/chris/chap5/StreamDemo.java:162-167 | method 2's loop formats exactly the pairs with sum divisible by 3, in order |
| `Chap5StreamDemo.PairsFilteredInsideOrAfter` | src/main/java/com/chris/chap5/StreamDemo.java:141-160 | filtering inside the `flatMap` equals filtering all pairs afterwards, on any lists |
| `Chap5StreamDemo.PairLists` | src/main/java/com/chris/chap5/StreamDemo.java:135-168 | pairs lists the six pairs; pairs2 and pairs3 are both `(2, 4), (3, 3)` |
| `Chap5StreamDemo.HealthyChecksAgree` | src/main/java/com/chris/chap5/StreamDemo.java:176-178 | `allMatch(<1000)` equals `noneMatch(>=1000)` on any menu |
| `Chap5StreamDemo.MatchingOfMenu` | src/main/java/com/chris/chap5/StreamDemo.java:172-182 | the menu has a vegetarian dish, is healthy, and `findAny` gives french fries |
| `Chap5StreamDemo.FirstSquareDivisibleBy3` | src/main/java/com/chris/chap5/StreamDemo.java:187-192 | the first square divisible by 3 among `1..9` is 9 |
| `Chap5StreamDemo.Sum` | src/main/java/com/chris/chap5/StreamDemo.java:196-200 | the `sum +=` loop equals `reduce(0, Integer::sum)` on every list |
| `Chap5StreamDemo.ReductionsOfIntegers` | src/main/java/com/chris/chap5/StreamDemo.java:203-211 | on `[1..5]`: sum 15 with and without identity, max 5, min 1, product 120 |
| `Chap5StreamDemo.Sums` | src/main/java/com/chris/chap5/StreamDemo.java:196-207 | the loop, `reduce(0, sum)` and `reduce(sum)` all give 15 |
| `Chap5StreamDemo.CountOfMenu` | src/main/java/com/chris/chap5/StreamDemo.java:222-228 | `map(d -> 1).reduce(0, sum)` equals `count()` = 9 |
| `Chap5StreamDemo.CaloriesOfMenu` | src/main/java/com/chris/chap5/StreamDemo.java:345-352 | the menu's calories sum to 4200 |
| `Chap5StreamDemo.MaxCalorieOfMenu` | src/main/java/com/chris/chap5/StreamDemo.java:361-364 | `mapToInt(calories).max().orElse(1)` is 800 |
| `Chap5StreamDemo.EvensUpTo` | src/main/java/com/chris/chap5/StreamDemo.java:368-370 | `rangeClosed(1, 2n).filter(even).count()` is n, for every n |
| `Chap5StreamDemo.EvenNumbers` | src/main/java/com/chris/chap5/StreamDemo.java:368-371 | `rangeClosed(1, 100)` holds 50 even numbers |
| `Chap5StreamDemo.UpperCase` | src/main/java/com/chris/chap5/StreamDemo.java:396 | `toUpperCase` keeps length and raises each lower-case ASCII letter |
| `Chap5StreamDemo.UpperCaseWords` | src/main/java/com/chris/chap5/StreamDemo.java:395-396 | `"Java 8", "in", "action"` map to `"JAVA 8", "IN", "ACTION"` |
| `Chap5StreamDemo.IterateEvens` | src/main/java/com/chris/chap5/StreamDemo.java:415 | `iterate(0, t -> t + 2).limit(n)` gives `0, 2, ..., 2(n-1)` |
| `Chap5StreamDemo.FirstFiveEvens` | src/main/java/com/chris/chap5/StreamDemo.java:415 | the first five are `0, 2, 4, 6, 8` |
| `Chap5StreamDemo.FibonacciTuples` | src/main/java/com/chris/chap5/StreamDemo.java:416-419 | the k-th tuple is `(Fib(k), Fib(k+1))` |
| `Chap5StreamDemo.FirstTenFibonacci` | src/main/java/com/chris/chap5/StreamDemo.java:421-423 | the first components are `0, 1, 1, 2, 3, 5, 8, 13, 21, 34` |
| `Chap5Traders.Transactions2011Spec` | src/main/java/com/chris/chap5/StreamDemo.java:256-259 | for any transactions, exactly the 2011 ones, a permutation, by increasing value |
| `Chap5Traders.Transactions2011OfExample` | src/main/java/com/chris/chap5/StreamDemo.java:254-259 | `[Brian 300, Raoul 400]` |
| `Chap5Traders.CitiesAgree` | src/main/java/com/chris/chap5/StreamDemo.java:264-273 | the `distinct` list and the `toSet` set hold the same cities; the list has no duplicates |
| `Chap5Traders.CitiesOfExample` | src/main/java/com/chris/chap5/StreamDemo.java:262-273 | `[Cambridge, Milan]` and `{Cambridge, Milan}` |
| `Chap5Traders.CambridgeTradersSpec` | src/main/java/com/chris/chap5/StreamDemo.java:278-282 | one trader per Cambridge transaction (duplicates kept), in name order |
| `Chap5Traders.CambridgeTradersOfExample` | src/main/java/com/chris/chap5/StreamDemo.java:276-282 | `[Alan, Brian, Raoul, Raoul]` |
| `Chap5Traders.TraderNamesAgree` | src/main/java/com/chris/chap5/StreamDemo.java:287-301 | `reduce("", +)` and `joining()` give the same string, on any transactions |
| `Chap5Traders.TraderNamesOfExample` | src/main/java/com/chris/chap5/StreamDemo.java:285-301 | both give `"AlanBrianMarioRaoul"` |
| `Chap5Traders.MilanOfExample` | src/main/java/com/chris/chap5/StreamDemo.java:304-312 | `findAny` in Milan is Mario's 710; `anyMatch` agrees |
| `Chap5Traders.CambridgeValuesOfExample` | src/main/java/com/chris/chap5/StreamDemo.java:316-321 | Cambridge values are `[300, 1000, 400, 950]` |
| `Chap5Traders.MaxMinValueOfExample` | src/main/java/com/chris/chap5/StreamDemo.java:329-340 | `reduce(max)` is present with 1000, `reduce(min)` with 300 |

## Left out

- Laziness and single traversal: streams are modelled by the sequence they yield. Pull-based evaluation, short-circuiting and the "stream already operated upon" error are not modelled. `ThreeHighCaloricDishNamesIgnoresRest` and `IterateLimitPrefix` state the observable side of short-circuiting.
- `Stream.generate(Math::random)` is nondeterministic. The Pythagorean triples use `sqrt` and `double`. Both are not modelled.
- Parallel streams (`parallelStream`, the parallel sum) are not modelled; only their sequential result is. `ReduceAssociative` states why the sum may be split.
- File I/O is not modelled: `processFile`/`BufferedReaderProcessor` and `Files.lines` read fixed local paths.
- Console output is not modelled: `process(Runnable)`, `println`, `ifPresent(println)`. `ForEach` models a consumer only by the events it emits, in order.
- The `streamList` example prints object identities; it is not modelled.
- Collectors and grouping (`CollectorsDemo.java`) are not part of this model. Neither is `HiddenFile.java`, a directory listing.
- `Dish.main`'s enum-identity comparison and the record getters, setters and `toString` are not modelled. `Arrays.stream(ints).sum()` (chap5 lines 400-401) is the same fold as `SumOfIntegers`.
- Java `int` overflow is modelled only for the subtraction comparator (`WrapInt`). Every other value in the examples is far below 2^31, and the model uses unbounded `int`.
- Comparators.CompareIgnoreCase: only ASCII letters are case-folded; Java's full Unicode case mapping is not modelled.
- Chap5StreamDemo.UpperCase: only ASCII letters are raised; Java's full Unicode case mapping is not modelled.
- Chap3Letter.ReplaceAll: models `String.replaceAll` only for a literal target with no regular-expression metacharacters, which is the one the source uses.
- Lists.Sort: the library's TimSort is replaced by a stable insertion sort. For a valid comparator both leave the same list (`StableSortUnique`). For a comparator that is not a total preorder Java may throw `IllegalArgumentException` or leave a different order; neither that nor the number of comparisons is modelled.
- Comparators.CompareStrings: a Dafny `string` is a sequence of Unicode scalar values, not of UTF-16 code units. So `String.length()` (`Chap3Lambda.Length`) and the `compareTo` order agree with Java only on text inside the Basic Multilingual Plane. Every string literal in the examples is ASCII.
- Streams.FindFirst: `findAny` is modelled as `findFirst`, which is what a sequential stream returns. Java documents `findAny` as free to return any match, so `MatchingOfMenu` and `MilanOfExample` state the sequential result only.
- Streams.Filter: its own contract states only a length bound; what it keeps and in which order is stated by `FilterMembers`, `FilterIsSubsequence` and `FilterMultiplicity`.
- Streams.SortBy: its own contract states only the length; permutation, order and stability are stated by `SortByPermutation`, `SortBySorted` and `SortByStable`.

## Findings

| source | as written | input that shows it | evidently intended | confidence | as-written member | corrected member |
|---|---|---|---|---|---|---|
| src/main/java/com/chris/chap3/Lambda.java:143-144 | pipeline 2 is `addHeader.andThen(Letter::addHeader)` | any text, e.g. `""` gives `"From Chris: From Chris: "` | `addHeader.andThen(Letter::addFooter)`, as the comment "addHeader -> addFooter" says | high, not executed | `Chap3Letter.Pipeline2AsWrittenDoublesHeader` | `Chap3Letter.Pipeline2Letter` |
