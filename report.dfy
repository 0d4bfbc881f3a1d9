/** The report's one computation (usd.py:74): the mean of the rates that
    are strictly positive, `mean([v for v in rates.values() if v > 0])`.
    The rates are the values of the `rates` dictionary in insertion order
    (bcv, dolartoday, enparalelovzla); `None` is a rate `parse_rate` could
    not read. */
module Report {
  import opened Outcomes
  import opened RateParsing

  function Sum(xs: seq<real>): real {
    if xs == [] then 0.0 else Sum(xs[..|xs| - 1]) + xs[|xs| - 1]
  }

  /** `statistics.mean(xs)`, as the exact quotient of the sum by the count;
      an empty list raises StatisticsError. The result lies between the
      least and the greatest element. */
  function Mean(xs: seq<real>): (r: Result<real>)
    ensures r.Raises? <==> xs == []
    ensures r.Raises? ==> r.error == StatisticsError
    ensures r.Ok? ==> r.value * |xs| as real == Sum(xs)
    ensures r.Ok? ==> exists i :: 0 <= i < |xs| && xs[i] <= r.value
    ensures r.Ok? ==> exists j :: 0 <= j < |xs| && r.value <= xs[j]
  {
    if xs == [] then Raises(StatisticsError)
    else
      MeanBetween(xs);
      Ok(Sum(xs) / |xs| as real)
  }

  lemma {:induction false} SumAbove(xs: seq<real>, c: real)
    requires forall i :: 0 <= i < |xs| ==> xs[i] > c
    requires xs != []
    ensures Sum(xs) > |xs| as real * c
  {
    var init := xs[..|xs| - 1];
    if init != [] {
      SumAbove(init, c);
    }
  }

  lemma {:induction false} SumBelow(xs: seq<real>, c: real)
    requires forall i :: 0 <= i < |xs| ==> xs[i] < c
    requires xs != []
    ensures Sum(xs) < |xs| as real * c
  {
    var init := xs[..|xs| - 1];
    if init != [] {
      SumBelow(init, c);
    }
  }

  /** Not every element can lie above the mean, nor every one below it. */
  lemma MeanBetween(xs: seq<real>)
    requires xs != []
    ensures exists i :: 0 <= i < |xs| && xs[i] <= Sum(xs) / |xs| as real
    ensures exists j :: 0 <= j < |xs| && Sum(xs) / |xs| as real <= xs[j]
  {
    var n := |xs| as real;
    var m := Sum(xs) / n;
    assert n * m == Sum(xs);
    if forall i :: 0 <= i < |xs| ==> xs[i] > m {
      SumAbove(xs, m);
      assert false;
    }
    if forall j :: 0 <= j < |xs| ==> xs[j] < m {
      SumBelow(xs, m);
      assert false;
    }
  }

  /** The `i`th rate takes part in the mean: it was read, and it is above zero. */
  predicate Included(rates: seq<Option<Decimal>>, i: int) {
    0 <= i < |rates| && Positive(rates[i])
  }

  /** `v > 0` for a rate that was read. */
  predicate Positive(rate: Option<Decimal>) {
    rate.Some? && Value(rate.value) > 0.0
  }

  /** How many of the first `n` rates take part in the mean; for an
      included rate at `n`, its place in the filtered list. */
  function IncludedBefore(rates: seq<Option<Decimal>>, n: nat): nat
    requires n <= |rates|
  {
    if n == 0 then 0
    else IncludedBefore(rates, n - 1) + (if Positive(rates[n - 1]) then 1 else 0)
  }

  /** The total of the included rates among the first `n`. */
  function SumIncluded(rates: seq<Option<Decimal>>, n: nat): real
    requires n <= |rates|
  {
    if n == 0 then 0.0
    else SumIncluded(rates, n - 1) + (if Positive(rates[n - 1]) then Value(rates[n - 1].value) else 0.0)
  }

  /** `[v for v in rates[:n] if v > 0]`: the rates are compared with 0 from
      left to right, and the first `None > 0` raises TypeError. */
  function PositiveUpTo(rates: seq<Option<Decimal>>, n: nat): (r: Result<seq<real>>)
    requires n <= |rates|
    ensures r.Raises? <==> exists i :: 0 <= i < n && rates[i].None?
    ensures r.Raises? ==> r.error == TypeError
  {
    if n == 0 then Ok([])
    else
      match PositiveUpTo(rates, n - 1)
      case Raises(e) => Raises(e)
      case Ok(xs) =>
        match rates[n - 1]
        case None => Raises(TypeError)
        case Some(d) => Ok(xs + (if Value(d) > 0.0 then [Value(d)] else []))
  }

  /** `xs` holds the value of each included rate among the first `n` once,
      in order: the `i`th rate sits at place `IncludedBefore(rates, i)`, and
      every place is filled so. Its total is theirs. */
  predicate ListsIncluded(rates: seq<Option<Decimal>>, n: nat, xs: seq<real>)
    requires n <= |rates|
  {
    && |xs| == IncludedBefore(rates, n)
    && Sum(xs) == SumIncluded(rates, n)
    && (forall i {:trigger Included(rates, i)} :: 0 <= i < n && Included(rates, i) ==>
          IncludedBefore(rates, i) < |xs| && xs[IncludedBefore(rates, i)] == Value(rates[i].value))
    && (forall k :: 0 <= k < |xs| ==> Filled(rates, n, k))
  }

  /** Place `k` of the filtered list is taken by one of the first `n` rates. */
  predicate Filled(rates: seq<Option<Decimal>>, n: nat, k: nat)
    requires n <= |rates|
  {
    exists i {:trigger Included(rates, i)} :: 0 <= i < n && Included(rates, i) && IncludedBefore(rates, i) == k
  }

  /** The filter keeps exactly the included rates, each once and in order. */
  lemma {:induction false} PositiveUpToLists(rates: seq<Option<Decimal>>, n: nat)
    requires n <= |rates| && PositiveUpTo(rates, n).Ok?
    ensures ListsIncluded(rates, n, PositiveUpTo(rates, n).value)
  {
    if n > 0 {
      PositiveUpToLists(rates, n - 1);
      var xs := PositiveUpTo(rates, n - 1).value;
      var d := rates[n - 1].value;
      var ys := xs + (if Value(d) > 0.0 then [Value(d)] else []);
      assert PositiveUpTo(rates, n).value == ys;
      if Value(d) > 0.0 {
        assert ys[..|xs|] == xs;
        assert Sum(ys) == Sum(xs) + Value(d);
      } else {
        assert ys == xs;
      }
      forall k | 0 <= k < |ys|
        ensures Filled(rates, n, k)
      {
        if k < |xs| {
          assert Filled(rates, n - 1, k);
          var i :| 0 <= i < n - 1 && Included(rates, i) && IncludedBefore(rates, i) == k;
        } else {
          assert Included(rates, n - 1);
        }
      }
    }
  }

  /** `[v for v in rates.values() if v > 0]` over the whole dictionary: the
      first `None` raises TypeError; otherwise the list holds the value of
      each included rate once, in order. */
  function PositiveRates(rates: seq<Option<Decimal>>): (r: Result<seq<real>>)
    ensures r.Raises? <==> exists i :: 0 <= i < |rates| && rates[i].None?
    ensures r.Raises? ==> r.error == TypeError
    ensures r.Ok? ==> |r.value| == IncludedBefore(rates, |rates|)
    ensures r.Ok? ==> forall i {:trigger Included(rates, i)} :: Included(rates, i) ==>
      IncludedBefore(rates, i) < |r.value| && r.value[IncludedBefore(rates, i)] == Value(rates[i].value)
    ensures r.Ok? ==> forall k :: 0 <= k < |r.value| ==> Filled(rates, |rates|, k)
  {
    var r := PositiveUpTo(rates, |rates|);
    if r.Ok? then PositiveUpToLists(rates, |rates|); r else r
  }

  /** `mean([v for v in rates.values() if v > 0])` (usd.py:74). It is defined
      exactly when every rate was read and one of them is positive; it is
      then the total of the included rates divided by their number, and lies
      between the least and the greatest of them. A rate of `None` raises
      TypeError; no positive rate raises StatisticsError, for the code has
      no guard. */
  function MeanOfPositive(rates: seq<Option<Decimal>>): (r: Result<real>)
    ensures r.Ok? <==> (forall i :: 0 <= i < |rates| ==> rates[i].Some?) && exists i :: Included(rates, i)
    ensures r.Raises? ==> r.error == if exists i :: 0 <= i < |rates| && rates[i].None? then TypeError else StatisticsError
    ensures r.Ok? ==> IncludedBefore(rates, |rates|) > 0 && r.value == SumIncluded(rates, |rates|) / IncludedBefore(rates, |rates|) as real
    ensures r.Ok? ==> exists i :: Included(rates, i) && Value(rates[i].value) <= r.value
    ensures r.Ok? ==> exists j :: Included(rates, j) && r.value <= Value(rates[j].value)
    ensures r.Ok? ==> r.value > 0.0
  {
    match PositiveUpTo(rates, |rates|)
    case Raises(e) => Raises(e)
    case Ok(xs) =>
      FilteredFrom(rates, xs);
      Mean(xs)
  }

  /** The filtered list is empty exactly when no rate is included, each of
      its elements is the value of an included rate, and its mean is the
      total of the included rates over their number. */
  lemma FilteredFrom(rates: seq<Option<Decimal>>, xs: seq<real>)
    requires PositiveUpTo(rates, |rates|) == Ok(xs)
    ensures xs != [] <==> exists i :: Included(rates, i)
    ensures forall k :: 0 <= k < |xs| ==> exists i :: Included(rates, i) && Value(rates[i].value) == xs[k]
    ensures Mean(xs).Ok? ==> IncludedBefore(rates, |rates|) > 0 && Mean(xs).value == SumIncluded(rates, |rates|) / IncludedBefore(rates, |rates|) as real
  {
    PositiveUpToLists(rates, |rates|);
    forall k | 0 <= k < |xs|
      ensures exists i :: Included(rates, i) && Value(rates[i].value) == xs[k]
    {
      assert Filled(rates, |rates|, k);
      var i :| 0 <= i < |rates| && Included(rates, i) && IncludedBefore(rates, i) == k;
    }
    if xs != [] {
      assert Filled(rates, |rates|, 0);
    }
    CountAndTotal(rates, xs);
  }

  /** The filtered list is as long as the number of included rates, and
      adds up to their total. */
  lemma CountAndTotal(rates: seq<Option<Decimal>>, xs: seq<real>)
    requires PositiveUpTo(rates, |rates|) == Ok(xs)
    ensures |xs| == IncludedBefore(rates, |rates|) && Sum(xs) == SumIncluded(rates, |rates|)
  {
    PositiveUpToLists(rates, |rates|);
  }

  /** Inserting a rate worth zero at position `|a|` leaves the filter over
      every prefix as it was: before the insertion the prefixes agree, after
      it they are one apart. */
  lemma {:induction false} ZeroDropsOutUpTo(a: seq<Option<Decimal>>, b: seq<Option<Decimal>>, d: Decimal, n: nat)
    requires Value(d) == 0.0 && n <= |a| + 1 + |b|
    ensures n <= |a| ==> PositiveUpTo(a + [Some(d)] + b, n) == PositiveUpTo(a + b, n)
    ensures |a| < n ==> PositiveUpTo(a + [Some(d)] + b, n) == PositiveUpTo(a + b, n - 1)
  {
    var x, y := a + [Some(d)] + b, a + b;
    if n == 0 {
    } else if n <= |a| {
      ZeroDropsOutUpTo(a, b, d, n - 1);
      assert x[n - 1] == y[n - 1] == a[n - 1];
    } else if n == |a| + 1 {
      ZeroDropsOutUpTo(a, b, d, n - 1);
      assert x[n - 1] == Some(d);
      if PositiveUpTo(x, n - 1).Ok? {
        var xs := PositiveUpTo(x, n - 1).value;
        assert xs + [] == xs;
      }
    } else {
      ZeroDropsOutUpTo(a, b, d, n - 1);
      assert x[n - 1] == y[n - 2] == b[n - 2 - |a|];
    }
  }

  /** Zero sentinels never affect the mean. */
  lemma ZeroRateIgnored(rates: seq<Option<Decimal>>, k: nat, d: Decimal)
    requires k <= |rates| && Value(d) == 0.0
    ensures MeanOfPositive(rates[..k] + [Some(d)] + rates[k..]) == MeanOfPositive(rates)
  {
    var a, b := rates[..k], rates[k..];
    var x := a + [Some(d)] + b;
    assert a + b == rates;
    ZeroDropsOutUpTo(a, b, d, |x|);
    assert PositiveUpTo(x, |x|) == PositiveUpTo(rates, |rates|);
  }

  lemma TwoRates()
    ensures MeanOfPositive([Some(Decimal(1000, 2)), Some(Decimal(2000, 2))]) == Ok(15.0)
  {
    assert Pow10(2) == 100;
    var rates := [Some(Decimal(1000, 2)), Some(Decimal(2000, 2))];
    assert Value(rates[0].value) == 10.0 && Value(rates[1].value) == 20.0;
    assert PositiveUpTo(rates, 1) == Ok([] + [10.0]);
    assert [] + [10.0] == [10.0] && [10.0] + [20.0] == [10.0, 20.0];
    assert PositiveUpTo(rates, 2) == Ok([10.0] + [20.0]);
    assert Sum([10.0, 20.0]) == 30.0 by {
      assert [10.0, 20.0][..1] == [10.0] && [10.0][..0] == [];
    }
  }

  /** A rate that occurs twice counts twice: 10, 10 and 40 have mean 20. */
  lemma RepeatedRateExample()
    ensures MeanOfPositive([Some(Decimal(10, 0)), Some(Decimal(10, 0)), Some(Decimal(40, 0))]) == Ok(20.0)
  {
    var rates := [Some(Decimal(10, 0)), Some(Decimal(10, 0)), Some(Decimal(40, 0))];
    assert Value(rates[0].value) == 10.0 && Value(rates[2].value) == 40.0;
    assert PositiveUpTo(rates, 0) == Ok([]);
    assert PositiveUpTo(rates, 1) == Ok([] + [10.0]);
    assert [] + [10.0] == [10.0] && [10.0] + [10.0] == [10.0, 10.0] && [10.0, 10.0] + [40.0] == [10.0, 10.0, 40.0];
    assert PositiveUpTo(rates, 2) == Ok([10.0] + [10.0]);
    assert PositiveUpTo(rates, 3) == Ok([10.0, 10.0] + [40.0]);
    assert Sum([10.0, 10.0, 40.0]) == 60.0 by {
      assert [10.0, 10.0, 40.0][..2] == [10.0, 10.0] && [10.0, 10.0][..1] == [10.0] && [10.0][..0] == [];
    }
  }

  /** Rates of 10.00 and 20.00 beside a failed source have mean 15.00. */
  lemma SentinelExample()
    ensures MeanOfPositive([Some(Decimal(1000, 2)), Some(Decimal(2000, 2)), Some(Zero)]) == Ok(15.0)
  {
    var rates := [Some(Decimal(1000, 2)), Some(Decimal(2000, 2))];
    assert rates[..2] == rates && rates[2..] == [];
    assert rates[..2] + [Some(Zero)] + rates[2..] == [Some(Decimal(1000, 2)), Some(Decimal(2000, 2)), Some(Zero)];
    ZeroRateIgnored(rates, 2, Zero);
    TwoRates();
  }

  /** When every source failed there is nothing to average, and the
      unguarded mean raises. */
  lemma AllFailedExample()
    ensures MeanOfPositive([Some(Zero), Some(Zero), Some(Zero)]) == Raises(StatisticsError)
  {
  }

  /** A source whose text did not parse contributes `None`, and comparing
      it with 0 raises before any mean is taken. */
  lemma UnreadRateExample()
    ensures MeanOfPositive([Some(Decimal(1000, 2)), None]) == Raises(TypeError)
  {
    assert [Some(Decimal(1000, 2)), None][1].None?;
  }
}
