/** The monthly installment simulator: a fixed amount buys shares on every day
    whose month number differs from the month of the last purchase and whose
    closing price is positive, and the position is marked to market every day. */
module Installment {
  import opened Wrappers
  import opened Calendar

  /** One day of the closing-price series. */
  datatype PricePoint = PricePoint(date: Date, price: real)

  /** One day of the result: the value of the position on that date. */
  datatype Entry = Entry(date: Date, value: real)

  /** A result series, named after the instrument code. */
  datatype Series = Series(name: string, entries: seq<Entry>)

  /** What the loop carries from one day to the next: `total_shares` and
      `last_invested_month`. */
  datatype Holding = Holding(shares: real, lastMonth: int)

  const Initial: Holding := Holding(0.0, NoMonth)

  /** Whether a day with price point `p` buys, given the holding before it. */
  predicate Buys(h: Holding, p: PricePoint)
  {
    p.date.month != h.lastMonth && p.price > 0.0
  }

  /** One iteration of the loop, before the value is recorded. */
  function Step(h: Holding, p: PricePoint, amount: real): (next: Holding)
    ensures Buys(h, p) ==> next == Holding(h.shares + amount / p.price, p.date.month)
    ensures !Buys(h, p) ==> next == h
  {
    if p.date.month != h.lastMonth then
      if p.price > 0.0 then Holding(h.shares + amount / p.price, p.date.month) else h
    else h
  }

  /** The holding after every day of `prices`, in order. */
  function HoldingAfter(prices: seq<PricePoint>, amount: real): Holding
    decreases |prices|
  {
    if prices == [] then Initial
    else Step(HoldingAfter(prices[..|prices| - 1], amount), prices[|prices| - 1], amount)
  }

  /** The holding before day `i`. */
  function HoldingBefore(prices: seq<PricePoint>, amount: real, i: nat): Holding
    requires i <= |prices|
  {
    HoldingAfter(prices[..i], amount)
  }

  /** Day `i` buys. */
  predicate BoughtOn(prices: seq<PricePoint>, amount: real, i: nat)
    requires i < |prices|
  {
    Buys(HoldingBefore(prices, amount, i), prices[i])
  }

  /** The shares held after day `i`'s possible purchase. */
  function SharesOn(prices: seq<PricePoint>, amount: real, i: nat): real
    requires i < |prices|
  {
    HoldingBefore(prices, amount, i + 1).shares
  }

  /** The value recorded for every day: shares held times that day's price. */
  function MarkedValues(prices: seq<PricePoint>, amount: real): (values: seq<real>)
    ensures |values| == |prices|
  {
    seq(|prices|, i requires 0 <= i < |prices| => SharesOn(prices, amount, i) * prices[i].price)
  }

  /** Pairs each day's date with a value. */
  function Label(prices: seq<PricePoint>, values: seq<real>): (entries: seq<Entry>)
    requires |values| == |prices|
    ensures |entries| == |prices|
  {
    seq(|prices|, i requires 0 <= i < |prices| => Entry(prices[i].date, values[i]))
  }

  /** The running sum of the values, left to right. */
  function Sum(entries: seq<Entry>): real
    decreases |entries|
  {
    if entries == [] then 0.0 else Sum(entries[..|entries| - 1]) + entries[|entries| - 1].value
  }

  /** The boolean mask "cumulative sum up to here is nonzero". */
  function Mask(entries: seq<Entry>): (keep: seq<bool>)
    ensures |keep| == |entries|
  {
    seq(|entries|, i requires 0 <= i < |entries| => Sum(entries[..i + 1]) != 0.0)
  }

  /** Boolean indexing: the elements whose mask entry is true, in order. */
  function Select<T>(xs: seq<T>, keep: seq<bool>): (r: seq<T>)
    requires |keep| == |xs|
    ensures |r| <= |xs|
    ensures forall x :: x in r ==> x in xs
    decreases |xs|
  {
    if xs == [] then []
    else (if keep[0] then [xs[0]] else []) + Select(xs[1..], keep[1..])
  }

  /** The entries whose prefix sum of values is nonzero. */
  function Trim(entries: seq<Entry>): (kept: seq<Entry>)
    ensures |kept| <= |entries|
    ensures entries == [] ==> kept == []
  {
    Select(entries, Mask(entries))
  }

  /** What the simulation returns for instrument `code` when loading its closing
      prices gave `load` (None when the load failed). */
  function SimulationOf(code: string, load: Option<seq<PricePoint>>, amount: real): Option<Series>
  {
    if code == "" then None
    else match load
      case None => None
      case Some(prices) =>
        if prices == [] then None
        else Some(Series(code, Trim(Label(prices, MarkedValues(prices, amount)))))
  }

  /** The simulation: an empty code, a failed load or an empty price series
      gives no result; otherwise the marked values, trimmed. */
  method RunMonthlyInstallmentSimulation(code: string, load: Option<seq<PricePoint>>, amount: real)
    returns (result: Option<Series>)
    ensures result == SimulationOf(code, load, amount)
  {
    if code == "" {
      return None;
    }
    if load.None? {
      return None;
    }
    var prices := load.value;
    if prices == [] {
      return None;
    }
    var cumulativeValue := MarkToMarket(prices, amount);
    result := Some(Series(code, Trim(Label(prices, cumulativeValue))));
  }

  /** The simulation loop: buys on each day whose month number differs from
      the month of the last purchase and whose price is positive, and records
      the marked value of every day. */
  method MarkToMarket(prices: seq<PricePoint>, amount: real) returns (values: seq<real>)
    ensures values == MarkedValues(prices, amount)
  {
    var cumulativeValue := new real[|prices|](_ => 0.0);
    var totalShares := 0.0;
    var lastInvestedMonth := NoMonth;
    ghost var marked := MarkedValues(prices, amount);
    var i := 0;
    while i < |prices|
      invariant 0 <= i <= |prices|
      invariant Holding(totalShares, lastInvestedMonth) == HoldingBefore(prices, amount, i)
      invariant forall k :: 0 <= k < i ==> cumulativeValue[k] == marked[k]
    {
      HoldingAfterStep(prices, amount, i);
      var currentMonth := prices[i].date.month;
      var price := prices[i].price;
      if currentMonth != lastInvestedMonth {
        if price > 0.0 {
          var sharesBought := amount / price;
          totalShares := totalShares + sharesBought;
          lastInvestedMonth := currentMonth;
        }
      }
      assert totalShares == SharesOn(prices, amount, i);
      cumulativeValue[i] := totalShares * price;
      i := i + 1;
    }
    values := cumulativeValue[..];
    assert forall k :: 0 <= k < |prices| ==> values[k] == marked[k];
  }

  // ---------------------------------------------------------------------------
  // The holding, day by day
  // ---------------------------------------------------------------------------

  lemma HoldingAfterStep(prices: seq<PricePoint>, amount: real, i: nat)
    requires i < |prices|
    ensures HoldingBefore(prices, amount, i + 1) == Step(HoldingBefore(prices, amount, i), prices[i], amount)
  {
    assert prices[..i + 1][..i] == prices[..i];
  }

  /** A day changes the holding exactly when it buys: the shares grow by
      `amount / price` and the month is remembered; otherwise nothing changes. */
  lemma PurchaseOnDay(prices: seq<PricePoint>, amount: real, i: nat)
    requires i < |prices|
    ensures BoughtOn(prices, amount, i) <==>
              prices[i].date.month != HoldingBefore(prices, amount, i).lastMonth && prices[i].price > 0.0
    ensures BoughtOn(prices, amount, i) ==>
              SharesOn(prices, amount, i) == HoldingBefore(prices, amount, i).shares + amount / prices[i].price
              && HoldingBefore(prices, amount, i + 1).lastMonth == prices[i].date.month
    ensures !BoughtOn(prices, amount, i) ==> HoldingBefore(prices, amount, i + 1) == HoldingBefore(prices, amount, i)
  {
    HoldingAfterStep(prices, amount, i);
  }

  /** A day whose price is not positive neither buys nor updates the
      remembered month. */
  lemma NonPositivePriceKeepsHolding(prices: seq<PricePoint>, amount: real, i: nat)
    requires i < |prices| && prices[i].price <= 0.0
    ensures !BoughtOn(prices, amount, i)
    ensures HoldingBefore(prices, amount, i + 1) == HoldingBefore(prices, amount, i)
  {
    HoldingAfterStep(prices, amount, i);
  }

  /** With a non-negative amount the shares held never decrease. */
  lemma {:induction false} SharesNeverDecrease(prices: seq<PricePoint>, amount: real, i: nat, j: nat)
    requires amount >= 0.0
    requires i <= j <= |prices|
    ensures HoldingBefore(prices, amount, i).shares <= HoldingBefore(prices, amount, j).shares
  {
    if i < j {
      SharesNeverDecrease(prices, amount, i, j - 1);
      HoldingAfterStep(prices, amount, j - 1);
      var h := HoldingBefore(prices, amount, j - 1);
      if Buys(h, prices[j - 1]) {
        DivNonNegative(amount, prices[j - 1].price);
      }
    }
  }

  lemma DivNonNegative(a: real, b: real)
    requires a >= 0.0 && b > 0.0
    ensures a / b >= 0.0
  {
  }

  /** Shares are never negative with a non-negative amount. */
  lemma SharesNonNegative(prices: seq<PricePoint>, amount: real, i: nat)
    requires amount >= 0.0 && i <= |prices|
    ensures HoldingBefore(prices, amount, i).shares >= 0.0
  {
    SharesNeverDecrease(prices, amount, 0, i);
  }

  /** Days whose price is not positive leave the holding as it was: a purchase
      that was due is carried over unchanged. */
  lemma {:induction false} SkippedDaysKeepHolding(prices: seq<PricePoint>, amount: real, i: nat, j: nat)
    requires i <= j <= |prices|
    requires forall k :: i <= k < j ==> prices[k].price <= 0.0
    ensures HoldingBefore(prices, amount, j) == HoldingBefore(prices, amount, i)
  {
    if i < j {
      SkippedDaysKeepHolding(prices, amount, i, j - 1);
      NonPositivePriceKeepsHolding(prices, amount, j - 1);
    }
  }

  /** A purchase that is due on day `i` (its month differs from the remembered
      one) but whose price is not positive is retried: the first later day of
      the same month run whose price is positive buys, and no day in between does. */
  lemma RetriedWithinMonthRun(prices: seq<PricePoint>, amount: real, i: nat, j: nat)
    requires i <= j < |prices|
    requires forall k :: i <= k <= j ==> prices[k].date.month == prices[i].date.month
    requires prices[i].date.month != HoldingBefore(prices, amount, i).lastMonth
    requires forall k :: i <= k < j ==> prices[k].price <= 0.0
    requires prices[j].price > 0.0
    ensures BoughtOn(prices, amount, j)
    ensures forall k :: i <= k < j ==> !BoughtOn(prices, amount, k)
  {
    SkippedDaysKeepHolding(prices, amount, i, j);
    forall k | i <= k < j
      ensures !BoughtOn(prices, amount, k)
    {
      NonPositivePriceKeepsHolding(prices, amount, k);
    }
  }

  /** After a purchase on day `i`, the remembered month stays that month
      throughout a run of days sharing its month number. */
  lemma {:induction false} RememberedMonthInRun(prices: seq<PricePoint>, amount: real, i: nat, j: nat)
    requires i < j <= |prices|
    requires forall k :: i <= k < j ==> prices[k].date.month == prices[i].date.month
    requires BoughtOn(prices, amount, i)
    ensures HoldingBefore(prices, amount, j).lastMonth == prices[i].date.month
  {
    if j == i + 1 {
      HoldingAfterStep(prices, amount, i);
    } else {
      RememberedMonthInRun(prices, amount, i, j - 1);
      HoldingAfterStep(prices, amount, j - 1);
    }
  }

  /** At most one purchase per run of consecutive days sharing a month number,
      whatever their years. */
  lemma AtMostOncePerMonthRun(prices: seq<PricePoint>, amount: real, i: nat, j: nat)
    requires i < j < |prices|
    requires forall k :: i <= k <= j ==> prices[k].date.month == prices[i].date.month
    requires BoughtOn(prices, amount, i)
    ensures !BoughtOn(prices, amount, j)
  {
    RememberedMonthInRun(prices, amount, i, j);
  }

  /** When every price is positive, the remembered month before day `i` is the
      previous day's month. */
  lemma {:induction false} RememberedMonthWhenPricesPositive(prices: seq<PricePoint>, amount: real, i: nat)
    requires forall k :: 0 <= k < |prices| ==> prices[k].price > 0.0
    requires i <= |prices|
    ensures HoldingBefore(prices, amount, i).lastMonth == if i == 0 then NoMonth else prices[i - 1].date.month
  {
    if i > 0 {
      RememberedMonthWhenPricesPositive(prices, amount, i - 1);
      HoldingAfterStep(prices, amount, i - 1);
    }
  }

  function DatesOf(prices: seq<PricePoint>): (dates: seq<Date>)
    ensures |dates| == |prices|
  {
    seq(|prices|, i requires 0 <= i < |prices| => prices[i].date)
  }

  /** When every price is positive, the simulator buys exactly on the days that
      start a new run of month numbers, the same days on which the principal
      baseline steps up. */
  lemma BuysExactlyOnNewMonthWhenPricesPositive(prices: seq<PricePoint>, amount: real, i: nat)
    requires forall k :: 0 <= k < |prices| ==> prices[k].price > 0.0
    requires i < |prices|
    ensures BoughtOn(prices, amount, i) <==> IsNewMonth(DatesOf(prices), i)
  {
    RememberedMonthWhenPricesPositive(prices, amount, i);
  }

  // ---------------------------------------------------------------------------
  // The trim
  // ---------------------------------------------------------------------------

  /** Boolean indexing distributes over concatenation: the kept elements stay
      in their input order. */
  lemma {:induction false} SelectAppend<T>(xs: seq<T>, ys: seq<T>, kx: seq<bool>, ky: seq<bool>)
    requires |kx| == |xs| && |ky| == |ys|
    ensures Select(xs + ys, kx + ky) == Select(xs, kx) + Select(ys, ky)
    decreases |xs|
  {
    if xs == [] {
      assert xs + ys == ys;
      assert kx + ky == ky;
    } else {
      assert (xs + ys)[0] == xs[0] && (kx + ky)[0] == kx[0];
      assert (xs + ys)[1..] == xs[1..] + ys;
      assert (kx + ky)[1..] == kx[1..] + ky;
      SelectAppend(xs[1..], ys, kx[1..], ky);
    }
  }

  /** A single element is kept exactly when its mask entry is true. */
  lemma SelectSingleton<T>(x: T, b: bool)
    ensures Select([x], [b]) == if b then [x] else []
  {
    assert [x][1..] == [];
    assert [b][1..] == [];
  }

  /** The trim, one entry at a time: a new last entry is kept exactly when the
      running sum of all values up to and including it is nonzero, and the
      entries before it are trimmed as before. */
  lemma TrimStep(e: seq<Entry>, x: Entry)
    ensures Trim(e + [x]) == Trim(e) + (if Sum(e) + x.value != 0.0 then [x] else [])
  {
    var kept := Sum(e) + x.value != 0.0;
    MaskAppend(e, x);
    SelectAppend(e, [x], Mask(e), [kept]);
    SelectSingleton(x, kept);
  }

  /** Appending an entry extends the mask by whether the running sum up to it is
      nonzero; the earlier mask entries do not change. */
  lemma MaskAppend(e: seq<Entry>, x: Entry)
    ensures Mask(e + [x]) == Mask(e) + [Sum(e) + x.value != 0.0]
  {
    var ex := e + [x];
    var kept := Sum(e) + x.value != 0.0;
    assert Sum(ex) == Sum(e) + x.value by {
      assert ex[..|ex| - 1] == e;
    }
    var m, m' := Mask(ex), Mask(e) + [kept];
    forall k | 0 <= k < |e|
      ensures m[k] == m'[k]
    {
      assert ex[..k + 1] == e[..k + 1];
    }
    assert m[|e|] == m'[|e|] by {
      assert ex[..|e| + 1] == ex;
    }
    assert m == m';
  }

  /** With a mask that is false before `k` and true from `k` on, boolean
      indexing keeps exactly the suffix from `k`. */
  lemma {:induction false} SelectSuffix<T>(xs: seq<T>, keep: seq<bool>, k: nat)
    requires |keep| == |xs| && k <= |xs|
    requires forall j :: 0 <= j < |xs| ==> keep[j] == (j >= k)
    ensures Select(xs, keep) == xs[k..]
    decreases |xs|
  {
    if xs != [] {
      if k == 0 {
        SelectSuffix(xs[1..], keep[1..], 0);
      } else {
        SelectSuffix(xs[1..], keep[1..], k - 1);
      }
    }
  }

  /** The sign of the prefix sums of non-negative values that are zero before `k`
      and positive at `k`. */
  lemma {:induction false} PrefixSumSign(e: seq<Entry>, k: nat, n: nat)
    requires k <= |e| && n <= |e|
    requires forall j :: 0 <= j < |e| ==> e[j].value >= 0.0
    requires forall j :: 0 <= j < k ==> e[j].value == 0.0
    requires k < |e| ==> e[k].value > 0.0
    ensures n <= k ==> Sum(e[..n]) == 0.0
    ensures n > k ==> Sum(e[..n]) > 0.0
  {
    if n > 0 {
      PrefixSumSign(e, k, n - 1);
      assert e[..n][..n - 1] == e[..n - 1];
    }
  }

  /** For non-negative values the trim drops exactly the leading zero-valued
      entries and keeps everything from the first nonzero one. */
  lemma TrimDropsLeadingZeros(e: seq<Entry>, k: nat)
    requires k <= |e|
    requires forall j :: 0 <= j < |e| ==> e[j].value >= 0.0
    requires forall j :: 0 <= j < k ==> e[j].value == 0.0
    requires k < |e| ==> e[k].value > 0.0
    ensures Trim(e) == e[k..]
  {
    var keep := Mask(e);
    forall j | 0 <= j < |e|
      ensures keep[j] == (j >= k)
    {
      PrefixSumSign(e, k, j + 1);
    }
    SelectSuffix(e, keep, k);
  }

  /** Before the first purchase no shares are held. */
  lemma {:induction false} NoSharesBeforeFirstPurchase(prices: seq<PricePoint>, amount: real, n: nat)
    requires n <= |prices|
    requires forall j :: 0 <= j < n ==> !BoughtOn(prices, amount, j)
    ensures HoldingBefore(prices, amount, n).shares == 0.0
  {
    if n > 0 {
      NoSharesBeforeFirstPurchase(prices, amount, n - 1);
      HoldingAfterStep(prices, amount, n - 1);
      assert !BoughtOn(prices, amount, n - 1);
    }
  }

  /** With a positive amount and non-negative prices, the simulation result
      starts at the first purchase: the days before it are dropped, every day
      from it on is kept. With no purchase at all (`k == |prices|`) it is empty. */
  lemma ResultStartsAtFirstPurchase(prices: seq<PricePoint>, amount: real, k: nat)
    requires amount > 0.0
    requires forall j :: 0 <= j < |prices| ==> prices[j].price >= 0.0
    requires k <= |prices|
    requires forall j :: 0 <= j < k ==> !BoughtOn(prices, amount, j)
    requires k < |prices| ==> BoughtOn(prices, amount, k)
    ensures Trim(Label(prices, MarkedValues(prices, amount))) == Label(prices, MarkedValues(prices, amount))[k..]
  {
    var e := Label(prices, MarkedValues(prices, amount));
    MarkedValuesNonNegative(prices, amount);
    forall j | 0 <= j < k
      ensures e[j].value == 0.0
    {
      NoSharesBeforeFirstPurchase(prices, amount, j + 1);
    }
    if k < |prices| {
      NoSharesBeforeFirstPurchase(prices, amount, k);
      PurchaseOnDay(prices, amount, k);
      assert e[k].value == amount / prices[k].price * prices[k].price;
    }
    TrimDropsLeadingZeros(e, k);
  }

  /** With a non-negative amount and non-negative prices, every marked value is
      non-negative. */
  lemma MarkedValuesNonNegative(prices: seq<PricePoint>, amount: real)
    requires amount >= 0.0
    requires forall j :: 0 <= j < |prices| ==> prices[j].price >= 0.0
    ensures forall j :: 0 <= j < |prices| ==> MarkedValues(prices, amount)[j] >= 0.0
  {
    forall j | 0 <= j < |prices|
      ensures MarkedValues(prices, amount)[j] >= 0.0
    {
      SharesNonNegative(prices, amount, j + 1);
      NonNegativeProduct(SharesOn(prices, amount, j), prices[j].price);
    }
  }

  lemma NonNegativeProduct(a: real, b: real)
    requires a >= 0.0 && b >= 0.0
    ensures a * b >= 0.0
  {
  }

  /** With a positive amount and only positive prices, the first day already
      buys, so the result holds every day of the series. */
  lemma ResultKeepsEveryDayWhenPricesPositive(code: string, prices: seq<PricePoint>, amount: real)
    requires code != "" && prices != [] && amount > 0.0
    requires forall j :: 0 <= j < |prices| ==> prices[j].price > 0.0
    ensures SimulationOf(code, Some(prices), amount) == Some(Series(code, Label(prices, MarkedValues(prices, amount))))
  {
    RememberedMonthWhenPricesPositive(prices, amount, 0);
    ResultStartsAtFirstPurchase(prices, amount, 0);
  }

  // ---------------------------------------------------------------------------
  // Worked examples
  // ---------------------------------------------------------------------------

  /** Prices 100 and 110 in January, then 120 in February. */
  const ThreeDays: seq<PricePoint> := [PricePoint(Date(2022, 1, 3), 100.0),
                                       PricePoint(Date(2022, 1, 4), 110.0),
                                       PricePoint(Date(2022, 2, 1), 120.0)]

  /** With an amount of 500000 the three days record 500000, 550000 and
      1100000. */
  lemma ThreeDayExample()
    ensures MarkedValues(ThreeDays, 500000.0) == [500000.0, 550000.0, 1100000.0]
  {
    HoldingAfterStep(ThreeDays, 500000.0, 0);
    HoldingAfterStep(ThreeDays, 500000.0, 1);
    HoldingAfterStep(ThreeDays, 500000.0, 2);
    assert HoldingBefore(ThreeDays, 500000.0, 1) == Holding(5000.0, 1);
    assert HoldingBefore(ThreeDays, 500000.0, 2) == Holding(5000.0, 1);
    assert HoldingBefore(ThreeDays, 500000.0, 3) == Holding(5000.0 + 500000.0 / 120.0, 2);
    var v := MarkedValues(ThreeDays, 500000.0);
    assert v[0] == 500000.0 && v[1] == 550000.0 && v[2] == 1100000.0;
  }

  /** The whole simulation of the three days keeps all of them, named after
      the code. */
  lemma ThreeDaySimulation(code: string)
    requires code != ""
    ensures SimulationOf(code, Some(ThreeDays), 500000.0)
            == Some(Series(code, [Entry(Date(2022, 1, 3), 500000.0),
                                  Entry(Date(2022, 1, 4), 550000.0),
                                  Entry(Date(2022, 2, 1), 1100000.0)]))
  {
    ThreeDayExample();
    ResultKeepsEveryDayWhenPricesPositive(code, ThreeDays, 500000.0);
    var e := Label(ThreeDays, MarkedValues(ThreeDays, 500000.0));
    assert e[0] == Entry(Date(2022, 1, 3), 500000.0);
    assert e[1] == Entry(Date(2022, 1, 4), 550000.0);
    assert e[2] == Entry(Date(2022, 2, 1), 1100000.0);
    assert e == [Entry(Date(2022, 1, 3), 500000.0), Entry(Date(2022, 1, 4), 550000.0),
                 Entry(Date(2022, 2, 1), 1100000.0)];
  }

  /** 2022-01-31 directly followed by 2023-01-02: the month number does not
      change, so only the first day buys. */
  lemma YearIsIgnored(amount: real)
    ensures var prices := [PricePoint(Date(2022, 1, 31), 100.0), PricePoint(Date(2023, 1, 2), 100.0)];
            BoughtOn(prices, amount, 0) && !BoughtOn(prices, amount, 1)
            && HoldingAfter(prices, amount).shares == amount / 100.0
  {
    var prices := [PricePoint(Date(2022, 1, 31), 100.0), PricePoint(Date(2023, 1, 2), 100.0)];
    HoldingAfterStep(prices, amount, 0);
    HoldingAfterStep(prices, amount, 1);
    assert prices[..2] == prices;
  }

  /** 2022-01-31 at 100, 2022-02-01 at 0, then 2023-01-02 at 100: February's
      purchase is skipped for the zero price, and the January of the next year
      does not buy either, because the last purchase was also in month 1. */
  lemma MissedMonthBlocksNextYear(amount: real)
    ensures var prices := [PricePoint(Date(2022, 1, 31), 100.0), PricePoint(Date(2022, 2, 1), 0.0),
                           PricePoint(Date(2023, 1, 2), 100.0)];
            BoughtOn(prices, amount, 0) && !BoughtOn(prices, amount, 1) && !BoughtOn(prices, amount, 2)
  {
    var prices := [PricePoint(Date(2022, 1, 31), 100.0), PricePoint(Date(2022, 2, 1), 0.0),
                   PricePoint(Date(2023, 1, 2), 100.0)];
    HoldingAfterStep(prices, amount, 0);
    HoldingAfterStep(prices, amount, 1);
  }
}
