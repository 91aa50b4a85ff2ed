/** The main block of the dashboard: runs the simulation for every cleaned
    code and collects the results that exist and are not empty. */
module Dashboard {
  import opened Wrappers
  import opened Installment
  import opened Principal

  /** The series a single result contributes: none when it is absent or empty. */
  function Usable(result: Option<Series>): seq<Series>
  {
    if result.Some? && result.value.entries != [] then [result.value] else []
  }

  /** The results that exist and are not empty, in input order. */
  function Collected(results: seq<Option<Series>>): seq<Series>
    decreases |results|
  {
    if results == [] then []
    else Collected(results[..|results| - 1]) + Usable(results[|results| - 1])
  }

  /** At most one series per result; every collected series is non-empty and
      comes from a result that exists. */
  lemma {:induction false} CollectedComesFromResults(results: seq<Option<Series>>)
    ensures |Collected(results)| <= |results|
    ensures forall s :: s in Collected(results) ==> s.entries != [] && Some(s) in results
    decreases |results|
  {
    if results != [] {
      var init := results[..|results| - 1];
      CollectedComesFromResults(init);
      forall s | s in Collected(results)
        ensures s.entries != [] && Some(s) in results
      {
        if s in Collected(init) {
          assert Some(s) in init;
        } else {
          assert results[|results| - 1] == Some(s);
        }
      }
    }
  }

  /** The simulation result of every code, in code order; `fetch` stands for
      the data provider and gives None when loading a code's prices fails. */
  function SimulationsOf(codes: seq<string>, fetch: string -> Option<seq<PricePoint>>, amount: real)
    : (results: seq<Option<Series>>)
    ensures |results| == |codes|
  {
    seq(|codes|, i requires 0 <= i < |codes| => SimulationOf(codes[i], fetch(codes[i]), amount))
  }

  /** The collection loop: simulates every code in order and keeps the results
      that exist and are not empty. */
  method CollectSimulationResults(codes: seq<string>, fetch: string -> Option<seq<PricePoint>>, amount: real)
    returns (simulationResults: seq<Series>)
    ensures simulationResults == Collected(SimulationsOf(codes, fetch, amount))
  {
    simulationResults := [];
    for i := 0 to |codes|
      invariant simulationResults == Collected(SimulationsOf(codes[..i], fetch, amount))
    {
      assert SimulationsOf(codes[..i + 1], fetch, amount)[..i] == SimulationsOf(codes[..i], fetch, amount);
      var resultSeries := RunMonthlyInstallmentSimulation(codes[i], fetch(codes[i]), amount);
      if resultSeries.Some? && resultSeries.value.entries != [] {
        simulationResults := simulationResults + [resultSeries.value];
      }
    }
    assert codes[..|codes|] == codes;
  }

  /** Every result that exists and is not empty is collected. */
  lemma {:induction false} CollectedKeepsEveryUsable(results: seq<Option<Series>>, i: nat)
    requires i < |results| && results[i].Some? && results[i].value.entries != []
    ensures results[i].value in Collected(results)
    decreases |results|
  {
    var last := |results| - 1;
    if i < last {
      CollectedKeepsEveryUsable(results[..last], i);
    }
  }

  /** Collecting distributes over concatenation: the collected series keep the
      order of their codes. */
  lemma {:induction false} CollectedAppend(a: seq<Option<Series>>, b: seq<Option<Series>>)
    ensures Collected(a + b) == Collected(a) + Collected(b)
    decreases |b|
  {
    if b == [] {
      assert a + b == a;
    } else {
      var last := |b| - 1;
      assert (a + b)[..|a + b| - 1] == a + b[..last];
      assert (a + b)[|a + b| - 1] == b[last];
      CollectedAppend(a, b[..last]);
    }
  }

  /** An absent result contributes nothing to the collection. */
  lemma AbsentResultIsSkipped(results: seq<Option<Series>>, i: nat)
    requires i < |results| && results[i].None?
    ensures Collected(results) == Collected(results[..i] + results[i + 1..])
  {
    assert results == results[..i] + [results[i]] + results[i + 1..];
    CollectedSkipsAbsent(results[..i], results[i], results[i + 1..]);
  }

  /** An absent result between two stretches of results collects nothing. */
  lemma CollectedSkipsAbsent(before: seq<Option<Series>>, absent: Option<Series>, after: seq<Option<Series>>)
    requires absent.None?
    ensures Collected(before + [absent] + after) == Collected(before + after)
  {
    CollectedAppend(before + [absent], after);
    CollectedAppend(before, [absent]);
    NothingCollectedFromAbsent(absent);
    CollectedAppend(before, after);
  }

  lemma NothingCollectedFromAbsent(result: Option<Series>)
    requires result.None?
    ensures Collected([result]) == []
  {
    assert [result][..0] == [];
  }

  /** A failed load for one code does not affect the others: the results of
      the remaining codes are collected as if that code were absent. */
  lemma FailedLoadIsSkipped(codes: seq<string>, fetch: string -> Option<seq<PricePoint>>, amount: real, i: nat)
    requires i < |codes| && fetch(codes[i]).None?
    ensures Collected(SimulationsOf(codes, fetch, amount))
            == Collected(SimulationsOf(codes[..i] + codes[i + 1..], fetch, amount))
  {
    var all := SimulationsOf(codes, fetch, amount);
    assert all[i].None?;
    AbsentResultIsSkipped(all, i);
    SimulationsWithout(codes, fetch, amount, i);
  }

  /** Leaving out one code leaves out exactly its result. */
  lemma SimulationsWithout(codes: seq<string>, fetch: string -> Option<seq<PricePoint>>, amount: real, i: nat)
    requires i < |codes|
    ensures SimulationsOf(codes[..i] + codes[i + 1..], fetch, amount)
            == SimulationsOf(codes, fetch, amount)[..i] + SimulationsOf(codes, fetch, amount)[i + 1..]
  {
    var all := SimulationsOf(codes, fetch, amount);
    var rest := codes[..i] + codes[i + 1..];
    forall k | 0 <= k < |rest|
      ensures SimulationsOf(rest, fetch, amount)[k] == (all[..i] + all[i + 1..])[k]
    {
      if k < i {
        assert rest[k] == codes[k];
      } else {
        assert rest[k] == codes[k + 1];
      }
    }
  }

  /** For one instrument whose prices are all positive, simulated on its own
      date index with a positive amount, the purchases happen on exactly the
      days where the principal baseline steps up. */
  lemma PurchasesMatchPrincipalSteps(prices: seq<PricePoint>, amount: real, i: nat)
    requires amount > 0.0
    requires forall k :: 0 <= k < |prices| ==> prices[k].price > 0.0
    requires 0 < i < |prices|
    ensures BoughtOn(prices, amount, i) <==>
              PrincipalAt(DatesOf(prices), amount, i) > PrincipalAt(DatesOf(prices), amount, i - 1)
    ensures BoughtOn(prices, amount, 0)
  {
    BuysExactlyOnNewMonthWhenPricesPositive(prices, amount, i);
    BuysExactlyOnNewMonthWhenPricesPositive(prices, amount, 0);
    PrincipalStep(DatesOf(prices), amount, i - 1);
  }
}
