/** The principal baseline: the total contributed so far over the merged date
    index of all instruments, growing by the monthly amount at every change of
    month number. */
module Principal {
  import opened Calendar

  /** The number of runs of month numbers in `dates`, counting the first date. */
  function MonthRuns(dates: seq<Date>): nat
    decreases |dates|
  {
    if dates == [] then 0
    else MonthRuns(dates[..|dates| - 1]) + (if IsNewMonth(dates, |dates| - 1) then 1 else 0)
  }

  /** The principal recorded for position `i` of the index. */
  function PrincipalAt(index: seq<Date>, amount: real, i: nat): real
    requires i < |index|
  {
    amount * MonthRuns(index[..i + 1]) as real
  }

  /** The principal loop: walks the index remembering the last month number,
      adds the amount at every change and records the running total for every
      date. */
  method AccumulatePrincipal(index: seq<Date>, amount: real) returns (principal: seq<real>)
    ensures |principal| == |index|
    ensures forall i :: 0 <= i < |index| ==> principal[i] == PrincipalAt(index, amount, i)
  {
    var cumulativePrincipal := new real[|index|](_ => 0.0);
    var totalInvestedPrincipal := 0.0;
    var lastInvestedMonth := NoMonth;
    var i := 0;
    while i < |index|
      invariant 0 <= i <= |index|
      invariant i == 0 ==> totalInvestedPrincipal == 0.0
      invariant i > 0 ==> totalInvestedPrincipal == PrincipalAt(index, amount, i - 1)
      invariant lastInvestedMonth == if i == 0 then NoMonth else index[i - 1].month
      invariant forall k :: 0 <= k < i ==> cumulativePrincipal[k] == PrincipalAt(index, amount, k)
    {
      if i == 0 {
        PrincipalStartsAtAmount(index, amount);
      } else {
        PrincipalStep(index, amount, i - 1);
      }
      var currentMonth := index[i].month;
      if currentMonth != lastInvestedMonth {
        totalInvestedPrincipal := totalInvestedPrincipal + amount;
        lastInvestedMonth := currentMonth;
      }
      assert totalInvestedPrincipal == PrincipalAt(index, amount, i);
      cumulativePrincipal[i] := totalInvestedPrincipal;
      i := i + 1;
    }
    principal := cumulativePrincipal[..];
  }

  lemma MonthRunsStep(index: seq<Date>, i: nat)
    requires i < |index|
    ensures MonthRuns(index[..i + 1]) == MonthRuns(index[..i]) + (if IsNewMonth(index, i) then 1 else 0)
  {
    assert index[..i + 1][..i] == index[..i];
  }

  /** The last entry is the amount times the number of month-number runs in the
      whole index. */
  lemma FinalPrincipal(index: seq<Date>, amount: real)
    requires |index| > 0
    ensures PrincipalAt(index, amount, |index| - 1) == amount * MonthRuns(index) as real
  {
    assert index[..|index|] == index;
  }

  /** A non-empty index has between one run and one run per date. */
  lemma {:induction false} MonthRunsBounds(dates: seq<Date>)
    ensures dates != [] ==> 1 <= MonthRuns(dates)
    ensures MonthRuns(dates) <= |dates|
    decreases |dates|
  {
    if dates != [] {
      MonthRunsBounds(dates[..|dates| - 1]);
    }
  }

  /** The first entry is one monthly amount. */
  lemma PrincipalStartsAtAmount(index: seq<Date>, amount: real)
    requires |index| > 0
    ensures PrincipalAt(index, amount, 0) == amount
  {
    MonthRunsStep(index, 0);
  }

  /** From one date to the next the principal rises by exactly the amount when
      the month number changes, and stays flat otherwise. */
  lemma PrincipalStep(index: seq<Date>, amount: real, i: nat)
    requires i + 1 < |index|
    ensures PrincipalAt(index, amount, i + 1) ==
              PrincipalAt(index, amount, i) + (if index[i + 1].month != index[i].month then amount else 0.0)
  {
    MonthRunsStep(index, i + 1);
  }

  /** With a non-negative amount the principal never decreases. */
  lemma {:induction false} PrincipalNonDecreasing(index: seq<Date>, amount: real, i: nat, j: nat)
    requires amount >= 0.0
    requires i <= j < |index|
    ensures PrincipalAt(index, amount, i) <= PrincipalAt(index, amount, j)
  {
    if i < j {
      PrincipalNonDecreasing(index, amount, i, j - 1);
      PrincipalStep(index, amount, j - 1);
    }
  }

  /** Three months of trading days with an amount of 500000: 500000 through
      January, 1000000 from the first February date, 1500000 from March. */
  lemma ThreeMonthExample()
    ensures var index := [Date(2022, 1, 3), Date(2022, 1, 4), Date(2022, 2, 1), Date(2022, 2, 2), Date(2022, 3, 2)];
            PrincipalAt(index, 500000.0, 0) == 500000.0
            && PrincipalAt(index, 500000.0, 1) == 500000.0
            && PrincipalAt(index, 500000.0, 2) == 1000000.0
            && PrincipalAt(index, 500000.0, 3) == 1000000.0
            && PrincipalAt(index, 500000.0, 4) == 1500000.0
  {
    var index := [Date(2022, 1, 3), Date(2022, 1, 4), Date(2022, 2, 1), Date(2022, 2, 2), Date(2022, 3, 2)];
    PrincipalStartsAtAmount(index, 500000.0);
    PrincipalStep(index, 500000.0, 0);
    PrincipalStep(index, 500000.0, 1);
    PrincipalStep(index, 500000.0, 2);
    PrincipalStep(index, 500000.0, 3);
  }
}
