/** pkg/currency/updater.go: rates merged by priority and carried forward. */
module HistoricalRates {
  import opened Bytes

  type Day = nat  // counted from any day that lies before all others
  type Currency = string

  datatype Rate = Rate(currency: Currency, rate: real)

  /** What one provider has returned; empty when it failed. The list of providers is in order of priority. */
  type ProviderResult = map<Day, seq<Rate>>

  type DayRates = map<Currency, real>

  function Lookup(rates: DayRates, c: Currency): Option<real> {
    if c in rates then Some(rates[c]) else None
  }

  function RateOn(rates: map<Day, DayRates>, d: Day, c: Currency): Option<real> {
    if d in rates then Lookup(rates[d], c) else None
  }

  // ---- what the rate of a day is meant to be

  /** The first rate of the currency in one list. */
  function Listed(rates: seq<Rate>, c: Currency): Option<real> {
    if rates == [] then None
    else if rates[0].currency == c then Some(rates[0].rate)
    else Listed(rates[1..], c)
  }

  function FromProvider(result: ProviderResult, d: Day, c: Currency): Option<real> {
    if d in result then Listed(result[d], c) else None
  }

  /** The rate of the first provider that has one for the day. */
  function Offered(results: seq<ProviderResult>, d: Day, c: Currency): Option<real> {
    if results == [] then None
    else if FromProvider(results[0], d, c).Some? then FromProvider(results[0], d, c)
    else Offered(results[1..], d, c)
  }

  /** The rate offered on the day, or else the one carried over from the day before. */
  function Carried(results: seq<ProviderResult>, days: seq<Day>, k: nat, c: Currency): Option<real>
    requires k < |days|
  {
    if Offered(results, days[k], c).Some? then Offered(results, days[k], c)
    else if k == 0 then None
    else Carried(results, days, k - 1, c)
  }

  /** The latest day, up to the k-th, on which some provider had the currency. */
  predicate IsLatest(results: seq<ProviderResult>, days: seq<Day>, k: nat, c: Currency, j: int)
    requires k < |days|
  {
    0 <= j <= k && Offered(results, days[j], c).Some? && forall i :: j < i <= k ==> Offered(results, days[i], c) == None
  }

  lemma {:induction false} CarriedIsFromTheLatestDay(results: seq<ProviderResult>, days: seq<Day>, k: nat, c: Currency)
    requires k < |days|
    ensures
      && (Carried(results, days, k, c).Some? <==> exists j :: 0 <= j <= k && Offered(results, days[j], c).Some?)
      && (forall j :: IsLatest(results, days, k, c, j) ==> Carried(results, days, k, c) == Offered(results, days[j], c))
      && (Carried(results, days, k, c).Some? ==> exists j :: IsLatest(results, days, k, c, j))
  {
    if Offered(results, days[k], c).Some? {
      assert IsLatest(results, days, k, c, k);
    } else if k > 0 {
      CarriedIsFromTheLatestDay(results, days, k - 1, c);
      if Carried(results, days, k - 1, c).Some? {
        var j :| IsLatest(results, days, k - 1, c, j);
        assert IsLatest(results, days, k, c, j);
      }
      forall j | IsLatest(results, days, k, c, j) ensures IsLatest(results, days, k - 1, c, j) {}
    }
  }

  predicate IsFirst(rates: seq<Rate>, c: Currency, i: int) {
    0 <= i < |rates| && rates[i].currency == c && forall j :: 0 <= j < i ==> rates[j].currency != c
  }

  /** The rate taken from a list is the first that it has for the currency. */
  lemma {:induction false} ListedIsTheFirst(rates: seq<Rate>, c: Currency)
    ensures Listed(rates, c) == None <==> forall i :: 0 <= i < |rates| ==> rates[i].currency != c
    ensures forall i :: IsFirst(rates, c, i) ==> Listed(rates, c) == Some(rates[i].rate)
  {
    if rates != [] {
      ListedIsTheFirst(rates[1..], c);
      assert forall i :: 0 < i < |rates| ==> rates[i] == rates[1..][i - 1];
      assert forall i :: 0 <= i < |rates| - 1 ==> rates[1..][i] == rates[i + 1];
      forall i | IsFirst(rates, c, i) ensures Listed(rates, c) == Some(rates[i].rate) {
        if i > 0 {
          assert rates[0].currency != c;
          assert IsFirst(rates[1..], c, i - 1);
        }
      }
    }
  }

  /** The provider whose rate is taken is the first in the list that has one. */
  lemma {:induction false} OfferedIsFromTheFirstProvider(results: seq<ProviderResult>, d: Day, c: Currency)
    returns (p: int)
    ensures Offered(results, d, c) == None ==>
      p == |results| && forall i :: 0 <= i < |results| ==> FromProvider(results[i], d, c) == None
    ensures Offered(results, d, c).Some? ==>
      && 0 <= p < |results| && FromProvider(results[p], d, c) == Offered(results, d, c)
      && forall i :: 0 <= i < p ==> FromProvider(results[i], d, c) == None
  {
    p := 0;
    if results != [] && FromProvider(results[0], d, c) == None {
      var q := OfferedIsFromTheFirstProvider(results[1..], d, c);
      p := q + 1;
      assert forall i :: 0 < i < |results| ==> results[i] == results[1..][i - 1];
    }
  }

  // ---- the code

  lemma {:induction false} OfferedSnoc(results: seq<ProviderResult>, n: nat, d: Day, c: Currency)
    requires n < |results|
    ensures Offered(results[..n + 1], d, c) ==
      if Offered(results[..n], d, c).Some? then Offered(results[..n], d, c) else FromProvider(results[n], d, c)
  {
    if n == 0 {
      assert results[..1][1..] == [] && results[..0] == [];
    } else {
      OfferedSnoc(results[1..], n - 1, d, c);
      assert results[1..][..n] == results[..n + 1][1..] && results[1..][..n - 1] == results[..n][1..];
    }
  }

  lemma {:induction false} ListedSnoc(rates: seq<Rate>, n: nat, c: Currency)
    requires n < |rates|
    ensures Listed(rates[..n + 1], c) ==
      if Listed(rates[..n], c).Some? then Listed(rates[..n], c)
      else if rates[n].currency == c then Some(rates[n].rate) else None
  {
    if n == 0 {
      assert rates[..1][1..] == [] && rates[..0] == [];
    } else {
      ListedSnoc(rates[1..], n - 1, c);
      assert rates[1..][..n] == rates[..n + 1][1..] && rates[1..][..n - 1] == rates[..n][1..];
    }
  }

  function Either(a: Option<real>, b: Option<real>): Option<real> { if a.Some? then a else b }

  /** What is there stays; a currency that is missing gets the first rate of the list. */
  method AddMissing(before: DayRates, dayRates: seq<Rate>) returns (rates: DayRates)
    ensures forall c :: Lookup(rates, c) == Either(Lookup(before, c), Listed(dayRates, c))
  {
    rates := before;
    for n := 0 to |dayRates|
      invariant forall c :: Lookup(rates, c) == Either(Lookup(before, c), Listed(dayRates[..n], c))
    {
      forall c {
        ListedSnoc(dayRates, n, c);
      }
      if dayRates[n].currency !in rates {
        rates := rates[dayRates[n].currency := dayRates[n].rate];
      }
    }
    assert dayRates[..|dayRates|] == dayRates;
  }

  method MergeDay(date: Day, providerResults: seq<ProviderResult>) returns (rates: DayRates)
    ensures forall c :: Lookup(rates, c) == Offered(providerResults, date, c)
  {
    rates := map[];
    for n := 0 to |providerResults|
      invariant forall c :: Lookup(rates, c) == Offered(providerResults[..n], date, c)
    {
      forall c {
        OfferedSnoc(providerResults, n, date, c);
      }
      if date in providerResults[n] {
        rates := AddMissing(rates, providerResults[n][date]);
      }
    }
    assert providerResults[..|providerResults|] == providerResults;
  }

  method MergeProviderResults(datesToUpdate: seq<Day>, providerResults: seq<ProviderResult>)
    returns (dayCurrencyRates: map<Day, DayRates>)
    ensures forall d :: d in dayCurrencyRates <==> d in datesToUpdate
    ensures forall d <- dayCurrencyRates, c :: RateOn(dayCurrencyRates, d, c) == Offered(providerResults, d, c)
  {
    dayCurrencyRates := map[];
    for n := 0 to |datesToUpdate|
      invariant forall d :: d in dayCurrencyRates <==> d in datesToUpdate[..n]
      invariant forall d <- dayCurrencyRates, c :: RateOn(dayCurrencyRates, d, c) == Offered(providerResults, d, c)
    {
      var rates := MergeDay(datesToUpdate[n], providerResults);
      dayCurrencyRates := dayCurrencyRates[datesToUpdate[n] := rates];
    }
  }

  /** The currencies of one day that the next day does not have are added to it. */
  method CarryOver(current: DayRates, next: DayRates) returns (filled: DayRates)
    ensures forall c :: Lookup(filled, c) == Either(Lookup(next, c), Lookup(current, c))
  {
    filled := next;
    var todo := current.Keys;
    while todo != {}
      invariant todo <= current.Keys
      invariant forall c :: Lookup(filled, c) == Either(Lookup(next, c), if c in todo then None else Lookup(current, c))
    {
      var currency :| currency in todo;
      if currency !in filled {
        filled := filled[currency := current[currency]];
      }
      todo := todo - {currency};
    }
  }

  predicate Ascending(dates: seq<Day>) {
    forall i, j :: 0 <= i < j < |dates| ==> dates[i] < dates[j]
  }

  function Insert(dates: seq<Day>, d: Day): (r: seq<Day>) {
    if dates == [] || d < dates[0] then [d] + dates else [dates[0]] + Insert(dates[1..], d)
  }

  lemma {:induction false} AscendingCons(d: Day, dates: seq<Day>)
    requires Ascending(dates) && forall x <- dates :: d < x
    ensures Ascending([d] + dates)
  {
    var r := [d] + dates;
    forall i, j | 0 <= i < j < |r| ensures r[i] < r[j] {
      assert r[j] == dates[j - 1] && dates[j - 1] in dates;
    }
  }

  lemma {:induction false} FirstIsLeast(dates: seq<Day>)
    requires Ascending(dates) && dates != []
    ensures Ascending(dates[1..]) && forall x <- dates[1..] :: dates[0] < x
  {}

  lemma {:induction false} InsertKeepsOrder(dates: seq<Day>, d: Day)
    requires Ascending(dates) && d !in dates
    ensures Ascending(Insert(dates, d)) && forall x :: x in Insert(dates, d) <==> x == d || x in dates
  {
    hide Ascending;
    if dates == [] {
      AscendingCons(d, dates);
    } else {
      FirstIsLeast(dates);
      assert dates == [dates[0]] + dates[1..];
      if d < dates[0] {
        AscendingCons(d, dates);
      } else {
        assert dates[0] in dates;
        InsertKeepsOrder(dates[1..], d);
        AscendingCons(dates[0], Insert(dates[1..], d));
      }
    }
  }

  /** funk.Keys and sort.Slice: the days of the map in order. */
  method SortedDays(rates: map<Day, DayRates>) returns (dates: seq<Day>)
    ensures Ascending(dates) && forall d :: d in rates <==> d in dates
  {
    dates := [];
    var todo := rates.Keys;
    while todo != {}
      invariant todo <= rates.Keys && Ascending(dates) && forall d :: d in dates <==> d in rates && d !in todo
    {
      var d :| d in todo;
      InsertKeepsOrder(dates, d);
      dates, todo := Insert(dates, d), todo - {d};
    }
  }

  /** The days up to the i-th are filled, the others as they were offered. */
  ghost predicate FilledTo(filled: map<Day, DayRates>, results: seq<ProviderResult>, dates: seq<Day>, i: int) {
    forall k, c :: 0 <= k < |dates| ==>
      RateOn(filled, dates[k], c) == if k <= i then Carried(results, dates, k, c) else Offered(results, dates[k], c)
  }

  lemma {:induction false} FillDay(filled: map<Day, DayRates>, results: seq<ProviderResult>, dates: seq<Day>, i: nat,
          next: DayRates)
    requires Ascending(dates) && i + 1 < |dates| && FilledTo(filled, results, dates, i)
    requires forall c :: Lookup(next, c) == Either(RateOn(filled, dates[i + 1], c), RateOn(filled, dates[i], c))
    ensures FilledTo(filled[dates[i + 1] := next], results, dates, i + 1)
  {
    var more := filled[dates[i + 1] := next];
    forall k, c | 0 <= k < |dates|
      ensures RateOn(more, dates[k], c) ==
              if k <= i + 1 then Carried(results, dates, k, c) else Offered(results, dates[k], c)
    {
      if k == i + 1 {
        assert RateOn(more, dates[k], c) == Lookup(next, c);
        assert RateOn(filled, dates[i], c) == Carried(results, dates, i, c);
        assert RateOn(filled, dates[k], c) == Offered(results, dates[k], c);
      } else {
        assert dates[k] != dates[i + 1];
        assert RateOn(more, dates[k], c) == RateOn(filled, dates[k], c);
      }
    }
  }

  lemma {:induction false} OnlyFirstDay(rates: map<Day, DayRates>, results: seq<ProviderResult>, dates: seq<Day>)
    requires forall d :: d in rates <==> d in dates
    requires forall d <- rates, c :: RateOn(rates, d, c) == Offered(results, d, c)
    ensures FilledTo(rates, results, dates, 0)
  {
    forall k, c | 0 <= k < |dates|
      ensures RateOn(rates, dates[k], c) ==
              if k <= 0 then Carried(results, dates, k, c) else Offered(results, dates[k], c)
    {
      assert dates[k] in dates;
      assert RateOn(rates, dates[k], c) == Offered(results, dates[k], c);
    }
  }

  method FillHistoricalGaps(rates: map<Day, DayRates>, ghost results: seq<ProviderResult>)
    returns (filled: map<Day, DayRates>, dates: seq<Day>)
    requires forall d <- rates, c :: RateOn(rates, d, c) == Offered(results, d, c)
    ensures Ascending(dates) && forall d :: d in rates <==> d in dates
    ensures filled.Keys == rates.Keys && FilledTo(filled, results, dates, |dates| - 1)
  {
    hide FilledTo, Ascending, RateOn, Carried, Offered;
    filled := rates;
    dates := SortedDays(rates);
    OnlyFirstDay(rates, results, dates);
    if |dates| == 0 {
      NoDays(filled, results, dates);
      return;
    }
    for i := 0 to |dates| - 1
      invariant filled.Keys == rates.Keys && FilledTo(filled, results, dates, i)
    {
      assert dates[i] in dates && dates[i + 1] in dates;
      var currentDate, nextDay := dates[i], dates[i + 1];
      var next := CarryOver(filled[currentDate], filled[nextDay]);
      OnDay(filled, currentDate);
      OnDay(filled, nextDay);
      FillDay(filled, results, dates, i, next);
      filled := filled[nextDay := next];
    }
  }

  lemma {:induction false} NoDays(filled: map<Day, DayRates>, results: seq<ProviderResult>, dates: seq<Day>)
    requires dates == []
    ensures FilledTo(filled, results, dates, |dates| - 1)
  {}

  lemma {:induction false} OnDay(rates: map<Day, DayRates>, d: Day)
    requires d in rates
    ensures forall c :: RateOn(rates, d, c) == Lookup(rates[d], c)
  {}

  /**
   After merging and filling, a currency has on each day the rate of the latest day up to it on which any provider had
   one, from the first provider that did; CarriedIsFromTheLatestDay and OfferedIsFromTheFirstProvider say so outright.
   The days may be given in any order and more than once; dates are the same days in order.
   */
  method UpdatedRates(datesToUpdate: seq<Day>, providerResults: seq<ProviderResult>)
    returns (filled: map<Day, DayRates>, dates: seq<Day>)
    ensures Ascending(dates) && forall d :: d in dates <==> d in datesToUpdate
    ensures forall d :: d in filled <==> d in dates
    ensures forall k, c :: 0 <= k < |dates| ==>
      RateOn(filled, dates[k], c) == Carried(providerResults, dates, k, c)
  {
    var merged := MergeProviderResults(datesToUpdate, providerResults);
    filled, dates := FillHistoricalGaps(merged, providerResults);
  }
}
