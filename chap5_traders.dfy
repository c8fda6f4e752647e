/**
 * Chapter 5's traders and transactions: eight queries over six
 * transactions made by four traders in Cambridge and Milan.
 */
module Chap5Traders {
  import opened Comparators
  import opened Streams

  datatype Trader = Trader(name: string, city: string)

  datatype Transaction = Transaction(trader: Trader, year: int, value: int)

  /** Transaction::getTrader */
  function TraderOf(t: Transaction): Trader { t.trader }

  /** Trader::getName */
  function NameOf(tr: Trader): string { tr.name }

  /** Trader::getCity */
  function CityOf(tr: Trader): string { tr.city }

  /** Transaction::getValue */
  function ValueOf(t: Transaction): int { t.value }

  const Raoul: Trader := Trader("Raoul", "Cambridge")
  const Mario: Trader := Trader("Mario", "Milan")
  const Alan: Trader := Trader("Alan", "Cambridge")
  const Brian: Trader := Trader("Brian", "Cambridge")

  /** The six transactions, with the traders written out. */
  const Transactions: seq<Transaction> := [
    Transaction(Trader("Brian", "Cambridge"), 2011, 300),
    Transaction(Trader("Raoul", "Cambridge"), 2012, 1000),
    Transaction(Trader("Raoul", "Cambridge"), 2011, 400),
    Transaction(Trader("Mario", "Milan"), 2012, 710),
    Transaction(Trader("Mario", "Milan"), 2012, 700),
    Transaction(Trader("Alan", "Cambridge"), 2012, 950)
  ]

  // ---------------------------------------------------------------------
  // 1. the transactions of 2011, by value

  /** transaction -> transaction.getYear() == 2011 */
  predicate In2011(t: Transaction) { t.year == 2011 }

  /** filter(year == 2011).sorted(comparing(Transaction::getValue)) */
  function Transactions2011(transactions: seq<Transaction>): seq<Transaction>
  {
    SortBy(Filter(transactions, In2011), Comparing(ValueOf))
  }

  /** The result holds exactly the transactions of 2011, each as often as
      in the input, in order of increasing value. */
  lemma Transactions2011Spec(transactions: seq<Transaction>)
    ensures multiset(Transactions2011(transactions)) == multiset(Filter(transactions, In2011))
    ensures forall t :: t in Transactions2011(transactions) <==> t in transactions && t.year == 2011
    ensures forall i, j :: 0 <= i < j < |Transactions2011(transactions)| ==>
      Transactions2011(transactions)[i].value <= Transactions2011(transactions)[j].value
  {
    var low := Filter(transactions, In2011);
    ComparingValid(ValueOf);
    SortBySorted(low, Comparing(ValueOf));
    SortByPermutation(low, Comparing(ValueOf));
    FilterMembers(transactions, In2011);
    SameElements(SortBy(low, Comparing(ValueOf)), low);
  }

  /** [Brian 2011 300, Raoul 2011 400] */
  lemma Transactions2011OfExample()
    ensures Transactions2011(Transactions) == [Transaction(Brian, 2011, 300), Transaction(Raoul, 2011, 400)]
  {
    var a, b := Transactions[0], Transactions[2];
    assert Filter(Transactions, In2011) == [a, b];
    var cmp := Comparing(ValueOf);
    assert cmp(b, a) > 0 && cmp(a, b) < 0;
    assert [a, b][1..] == [b];
    assert SortBy([b], cmp) == [b];
    assert Insert(a, [b], cmp) == [a, b];
  }

  // ---------------------------------------------------------------------
  // 2. the cities

  /** map(getTrader).map(getCity).distinct() */
  function Cities(transactions: seq<Transaction>): seq<string>
  {
    Distinct(Map(Map(transactions, TraderOf), CityOf))
  }

  /** transaction -> transaction.getTrader().getCity() */
  function CityOfTransaction(t: Transaction): string { t.trader.city }

  /** map(t -> t.getTrader().getCity()).collect(toSet()) */
  function Cities2(transactions: seq<Transaction>): set<string>
  {
    ToSet(Map(transactions, CityOfTransaction))
  }

  /** The distinct list and the set hold the same cities; the list names
      each once. */
  lemma CitiesAgree(transactions: seq<Transaction>)
    ensures ToSet(Cities(transactions)) == Cities2(transactions)
    ensures NoDuplicates(Cities(transactions))
  {
    var cities := Map(Map(transactions, TraderOf), CityOf);
    assert cities == Map(transactions, CityOfTransaction);
    DistinctToSet(cities);
    DistinctKeepsFirstOccurrences(cities);
  }

  /** ["Cambridge", "Milan"] */
  lemma CitiesOfExample()
    ensures Cities(Transactions) == ["Cambridge", "Milan"]
    ensures Cities2(Transactions) == {"Cambridge", "Milan"}
  {
    CityList();
    DistinctCities();
    CitiesAgree(Transactions);
  }

  lemma DistinctCities()
    ensures Distinct(["Cambridge", "Cambridge", "Cambridge", "Milan", "Milan", "Cambridge"]) == ["Cambridge", "Milan"]
  {
    var c, m := "Cambridge", "Milan";
    assert [c, c, c, m, m, c] == [c] + ([c] + ([c] + ([m] + ([m] + [c]))));
    DistinctFromCons(c, [], {c, m}, {c, m});
    DistinctFromCons(m, [c], {c, m}, {c, m});
    DistinctFromCons(m, [m, c], {c}, {c, m});
    DistinctFromCons(c, [m, m, c], {c}, {c});
    DistinctFromCons(c, [c, m, m, c], {c}, {c});
    DistinctFromCons(c, [c, c, m, m, c], {}, {c});
  }

  lemma CityList()
    ensures Map(Map(Transactions, TraderOf), CityOf)
         == ["Cambridge", "Cambridge", "Cambridge", "Milan", "Milan", "Cambridge"]
  {
  }

  // ---------------------------------------------------------------------
  // 3. the traders from Cambridge, by name

  /** trader -> "Cambridge".equals(trader.getCity()) */
  predicate IsFromCambridge(tr: Trader) { tr.city == "Cambridge" }

  /** map(getTrader).filter(from Cambridge).sorted(comparing(Trader::getName)) */
  function CambridgeTraders(transactions: seq<Transaction>): seq<Trader>
  {
    SortBy(Filter(Map(transactions, TraderOf), IsFromCambridge), ComparingString(NameOf))
  }

  /** One trader per Cambridge transaction is kept, duplicates included, in
      alphabetical order of name. */
  lemma CambridgeTradersSpec(transactions: seq<Transaction>)
    ensures multiset(CambridgeTraders(transactions))
         == multiset(Filter(Map(transactions, TraderOf), IsFromCambridge))
    ensures forall i, j :: 0 <= i < j < |CambridgeTraders(transactions)| ==>
      CompareStrings(CambridgeTraders(transactions)[i].name, CambridgeTraders(transactions)[j].name) <= 0
  {
    var traders := Filter(Map(transactions, TraderOf), IsFromCambridge);
    ComparingStringValid(NameOf);
    SortBySorted(traders, ComparingString(NameOf));
    SortByPermutation(traders, ComparingString(NameOf));
  }

  /** [Alan, Brian, Raoul, Raoul] */
  lemma CambridgeTradersOfExample()
    ensures CambridgeTraders(Transactions) == [Alan, Brian, Raoul, Raoul]
  {
    CambridgeTraderList();
    SortCambridgeTraders();
  }

  lemma CambridgeTraderList()
    ensures Filter(Map(Transactions, TraderOf), IsFromCambridge) == [Brian, Raoul, Raoul, Alan]
  {
    TraderList();
    assert Filter([Trader("Brian", "Cambridge"), Trader("Raoul", "Cambridge"), Trader("Raoul", "Cambridge"),
                   Trader("Mario", "Milan"), Trader("Mario", "Milan"), Trader("Alan", "Cambridge")], IsFromCambridge)
        == [Trader("Brian", "Cambridge"), Trader("Raoul", "Cambridge"), Trader("Raoul", "Cambridge"), Trader("Alan", "Cambridge")];
  }

  lemma TraderList()
    ensures Map(Transactions, TraderOf) == [Brian, Raoul, Raoul, Mario, Mario, Alan]
  {
  }

  /** The alphabetical order of the four names. */
  lemma NameOrder()
    ensures CompareStrings("Alan", "Brian") < 0 && CompareStrings("Brian", "Mario") < 0
    ensures CompareStrings("Mario", "Raoul") < 0 && CompareStrings("Alan", "Mario") < 0
    ensures CompareStrings("Brian", "Raoul") < 0 && CompareStrings("Alan", "Raoul") < 0
  {
  }

  lemma SortCambridgeTraders()
    ensures SortBy([Brian, Raoul, Raoul, Alan], ComparingString(NameOf)) == [Alan, Brian, Raoul, Raoul]
  {
    var cmp := ComparingString(NameOf);
    NameOrder();
    CompareStringsAntisymmetric("Alan", "Raoul");
    CompareStringsAntisymmetric("Alan", "Brian");
    assert cmp(Raoul, Alan) > 0 && cmp(Raoul, Raoul) == 0 && cmp(Brian, Alan) > 0 && cmp(Brian, Raoul) < 0;
    SortByCons(Alan, [], cmp);
    SortByCons(Raoul, [Alan], cmp);
    SortByCons(Raoul, [Raoul, Alan], cmp);
    SortByCons(Brian, [Raoul, Raoul, Alan], cmp);
    assert [Raoul, Alan] == [Raoul] + [Alan];
    assert [Raoul, Raoul, Alan] == [Raoul] + [Raoul, Alan];
    assert [Brian, Raoul, Raoul, Alan] == [Brian] + [Raoul, Raoul, Alan];
    InsertCons(Raoul, Alan, [], cmp);
    InsertCons(Raoul, Alan, [Raoul], cmp);
    InsertCons(Raoul, Raoul, [], cmp);
    InsertCons(Brian, Alan, [Raoul, Raoul], cmp);
    InsertCons(Brian, Raoul, [Raoul], cmp);
  }

  // ---------------------------------------------------------------------
  // 4. the traders' names, sorted

  /** transaction -> transaction.getTrader().getName() */
  function TraderNameOf(t: Transaction): string { t.trader.name }

  /** map(name).distinct().sorted() */
  function SortedTraderNames(transactions: seq<Transaction>): seq<string>
  {
    SortBy(Distinct(Map(transactions, TraderNameOf)), CompareStrings)
  }

  /** ... .reduce("", (name1, name2) -> name1 + name2) */
  function TraderNames(transactions: seq<Transaction>): string
  {
    Reduce(SortedTraderNames(transactions), "", Concat)
  }

  /** ... .collect(Collectors.joining()) */
  function TraderNames2(transactions: seq<Transaction>): string
  {
    Join(SortedTraderNames(transactions))
  }

  /** Concatenating by reduce and by joining() build the same string. */
  lemma TraderNamesAgree(transactions: seq<Transaction>)
    ensures TraderNames(transactions) == TraderNames2(transactions)
  {
    ReduceConcatIsJoin(SortedTraderNames(transactions), "");
  }

  /** "AlanBrianMarioRaoul" */
  lemma TraderNamesOfExample()
    ensures TraderNames(Transactions) == "AlanBrianMarioRaoul"
    ensures TraderNames2(Transactions) == "AlanBrianMarioRaoul"
  {
    SortedTraderNamesOfExample();
    TraderNamesAgree(Transactions);
    assert Join(["Alan", "Brian", "Mario", "Raoul"]) == "AlanBrianMarioRaoul";
  }

  lemma SortedTraderNamesOfExample()
    ensures SortedTraderNames(Transactions) == ["Alan", "Brian", "Mario", "Raoul"]
  {
    TraderNameList();
    DistinctTraderNames();
    SortTraderNames();
  }

  lemma SortTraderNames()
    ensures SortBy(["Brian", "Raoul", "Mario", "Alan"], CompareStrings) == ["Alan", "Brian", "Mario", "Raoul"]
  {
    var cmp := CompareStrings;
    var a, b, m, r := "Alan", "Brian", "Mario", "Raoul";
    NameOrder();
    CompareStringsAntisymmetric(a, m);
    CompareStringsAntisymmetric(m, r);
    CompareStringsAntisymmetric(a, r);
    CompareStringsAntisymmetric(a, b);
    SortByCons(a, [], cmp);
    SortByCons(m, [a], cmp);
    SortByCons(r, [m, a], cmp);
    SortByCons(b, [r, m, a], cmp);
    assert [m, a] == [m] + [a];
    assert [r, m, a] == [r] + [m, a];
    assert [b, r, m, a] == [b] + [r, m, a];
    InsertCons(m, a, [], cmp);
    InsertCons(r, a, [m], cmp);
    InsertCons(r, m, [], cmp);
    InsertCons(b, a, [m, r], cmp);
    InsertCons(b, m, [r], cmp);
  }

  lemma TraderNameList()
    ensures Map(Transactions, TraderNameOf) == ["Brian", "Raoul", "Raoul", "Mario", "Mario", "Alan"]
  {
  }

  lemma DistinctTraderNames()
    ensures Distinct(["Brian", "Raoul", "Raoul", "Mario", "Mario", "Alan"]) == ["Brian", "Raoul", "Mario", "Alan"]
  {
    var a, b, m, r := "Alan", "Brian", "Mario", "Raoul";
    assert [b, r, r, m, m, a] == [b] + ([r] + ([r] + ([m] + ([m] + [a]))));
    DistinctFromCons(a, [], {b, r, m}, {b, r, m, a});
    DistinctFromCons(m, [a], {b, r, m}, {b, r, m});
    DistinctFromCons(m, [m, a], {b, r}, {b, r, m});
    DistinctFromCons(r, [m, m, a], {b, r}, {b, r});
    DistinctFromCons(r, [r, m, m, a], {b}, {b, r});
    DistinctFromCons(b, [r, r, m, m, a], {}, {b});
  }

  // ---------------------------------------------------------------------
  // 5. a trader in Milan

  /** transaction -> "Milan".equals(transaction.getTrader().getCity()) */
  predicate IsInMilan(t: Transaction) { t.trader.city == "Milan" }

  /** filter(in Milan).findAny() finds Mario's 710, and anyMatch(in Milan)
      agrees that there is one. */
  lemma MilanOfExample()
    ensures FindFirst(Filter(Transactions, IsInMilan)) == Some(Transaction(Mario, 2012, 710))
    ensures AnyMatch(Transactions, IsInMilan)
  {
    var s := Transactions;
    assert s[1..][1..][1..][0] == s[3];
    assert Filter(s, IsInMilan) == [s[3]] + Filter(s[4..], IsInMilan) by {
      assert s[1..] == s[1..];
      assert s[1..][1..] == s[2..] && s[2..][1..] == s[3..] && s[3..][1..] == s[4..];
    }
    AnyMatchFindFirst(s, IsInMilan);
  }

  // ---------------------------------------------------------------------
  // 6. - 8. values

  /** transaction -> "Cambridge".equals(transaction.getTrader().getCity()) */
  predicate IsInCambridge(t: Transaction) { t.trader.city == "Cambridge" }

  /** filter(in Cambridge).map(Transaction::getValue): [300, 1000, 400, 950] */
  lemma CambridgeValuesOfExample()
    ensures Map(Filter(Transactions, IsInCambridge), ValueOf) == [300, 1000, 400, 950]
  {
    var s := Transactions;
    assert Filter(s, IsInCambridge) == [s[0], s[1], s[2], s[5]];
  }

  const ValueList: seq<int> := [300, 1000, 400, 710, 700, 950]

  /** map(Transaction::getValue).reduce(Integer::max) is present with 1000,
      and reduce(Integer::min) with 300. */
  lemma MaxMinValueOfExample()
    ensures ReduceOptional(Map(Transactions, ValueOf), Max) == Some(1000)
    ensures ReduceOptional(Map(Transactions, ValueOf), Min) == Some(300)
  {
    assert Map(Transactions, ValueOf) == ValueList;
    MaxMinOfValues();
  }

  lemma MaxMinOfValues()
    ensures ReduceOptional(ValueList, Max) == Some(1000)
    ensures ReduceOptional(ValueList, Min) == Some(300)
  {
    ReduceMaxMin(ValueList);
  }
}
