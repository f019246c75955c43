/** The run of scripts/get_gas_cost.py (`main`): check that a filter was
    given, collect every matching version, then add up the gas each one used.
    The transaction-lookup endpoint (`get_gas_cost`) is an oracle that gives
    a version's gas, or `None` where the lookup raises. */
module GasCost {
  import opened Wrappers
  import opened Query
  import opened Pagination

  /** `get_gas_cost` as the script sees it. */
  type GasLookup = nat -> Option<nat>

  /** One network request, in the order the run makes them. */
  datatype Request = IndexerQuery(query: string) | TransactionLookup(version: nat)

  /** How a run ends: the usage error (`return 1`), a failed lookup that
      propagates out of `main`, or the total gas in Octa that it reports. */
  datatype Outcome = UsageError | LookupFailed | Total(octas: nat)

  /** `[txn["version"] for txn in transactions]`. */
  function Versions(transactions: seq<Transaction>): (versions: seq<nat>)
    ensures |versions| == |transactions|
    ensures forall i :: 0 <= i < |versions| ==> versions[i] == transactions[i].version
  {
    seq(|transactions|, i requires 0 <= i < |transactions| => transactions[i].version)
  }

  predicate AllPriced(gasUsed: GasLookup, versions: seq<nat>) {
    forall i :: 0 <= i < |versions| ==> gasUsed(versions[i]).Some?
  }

  /** The running total, from 0, adding each version's gas in list order. */
  function TotalGas(gasUsed: GasLookup, versions: seq<nat>): nat
    requires AllPriced(gasUsed, versions)
    decreases |versions|
  {
    if |versions| == 0 then 0
    else TotalGas(gasUsed, versions[..|versions| - 1]) + gasUsed(versions[|versions| - 1]).value
  }

  /** The versions looked up: all of them, or up to and including the first
      whose lookup fails. */
  function LookedUp(gasUsed: GasLookup, versions: seq<nat>): seq<nat>
    decreases |versions|
  {
    if |versions| == 0 then []
    else if gasUsed(versions[0]).None? then [versions[0]]
    else [versions[0]] + LookedUp(gasUsed, versions[1..])
  }

  /** What pricing a version list ends in. */
  function Pricing(gasUsed: GasLookup, versions: seq<nat>): Outcome {
    if AllPriced(gasUsed, versions) then Total(TotalGas(gasUsed, versions)) else LookupFailed
  }

  function IndexerRequests(queries: seq<string>): (requests: seq<Request>)
    ensures |requests| == |queries|
    ensures forall k :: 0 <= k < |queries| ==> requests[k] == IndexerQuery(queries[k])
  {
    seq(|queries|, k requires 0 <= k < |queries| => IndexerQuery(queries[k]))
  }

  function LookupRequests(versions: seq<nat>): (requests: seq<Request>)
    ensures |requests| == |versions|
    ensures forall i :: 0 <= i < |versions| ==> requests[i] == TransactionLookup(versions[i])
  {
    seq(|versions|, i requires 0 <= i < |versions| => TransactionLookup(versions[i]))
  }

  /** When some filter is given, some page comes back empty, so paging ends. */
  ghost predicate RunTerminates(filter: Filter, indexer: Indexer) {
    filter.sender.Some? || filter.entryFunction.Some? ==> Exhausts(indexer, filter)
  }

  /** `main`, after argument parsing.  `trace` lists the network requests
      in the order they are made. */
  method Run(filter: Filter, indexer: Indexer, gasUsed: GasLookup)
    returns (outcome: Outcome, trace: seq<Request>)
    requires RunTerminates(filter, indexer)
    ensures outcome == UsageError <==> filter.sender.None? && filter.entryFunction.None?
    ensures outcome == UsageError ==> trace == []
    ensures outcome != UsageError ==>
              var versions := Versions(AllTransactions(indexer, filter));
              && outcome == Pricing(gasUsed, versions)
              && trace == IndexerRequests(PageQueries(filter, Rounds(indexer, filter) + 1))
                          + LookupRequests(LookedUp(gasUsed, versions))
  {
    if filter.sender.None? && filter.entryFunction.None? {
      return UsageError, [];
    }
    var transactions, queries := GetTransactions(indexer, filter);
    var versions := Versions(transactions);
    trace := IndexerRequests(queries);
    ghost var pages := trace;
    var totalGasCost := 0;
    for i := 0 to |versions|
      invariant AllPriced(gasUsed, versions[..i])
      invariant totalGasCost == TotalGas(gasUsed, versions[..i])
      invariant trace == pages + LookupRequests(versions[..i])
    {
      trace := trace + [TransactionLookup(versions[i])];
      LookupRequestsExtend(versions, i);
      var gasCost := gasUsed(versions[i]);
      if gasCost.None? {
        LookedUpStopsAtFailure(gasUsed, versions, i);
        return LookupFailed, trace;
      }
      NextLookup(gasUsed, versions, i);
      totalGasCost := totalGasCost + gasCost.value;
    }
    assert versions[..|versions|] == versions;
    LookedUpAll(gasUsed, versions);
    outcome := Total(totalGasCost);
  }

  /** A successful lookup adds its version's gas to the running total. */
  lemma NextLookup(gasUsed: GasLookup, versions: seq<nat>, i: nat)
    requires i < |versions| && AllPriced(gasUsed, versions[..i]) && gasUsed(versions[i]).Some?
    ensures AllPriced(gasUsed, versions[..i + 1])
    ensures TotalGas(gasUsed, versions[..i + 1])
         == TotalGas(gasUsed, versions[..i]) + gasUsed(versions[i]).value
  {
    assert versions[..i + 1][..i] == versions[..i];
  }

  lemma LookupRequestsExtend(versions: seq<nat>, i: nat)
    requires i < |versions|
    ensures LookupRequests(versions[..i + 1])
         == LookupRequests(versions[..i]) + [TransactionLookup(versions[i])]
  {
  }

  // ---------------------------------------------------------------------
  // Properties of the lookups and the total
  // ---------------------------------------------------------------------

  /** When the first failing lookup is the i-th, exactly the versions up to
      it are looked up and the run ends without a total. */
  lemma {:induction false} LookedUpStopsAtFailure(gasUsed: GasLookup, versions: seq<nat>, i: nat)
    requires i < |versions| && AllPriced(gasUsed, versions[..i])
    requires gasUsed(versions[i]).None?
    ensures LookedUp(gasUsed, versions) == versions[..i + 1]
    ensures Pricing(gasUsed, versions) == LookupFailed
    decreases i
  {
    if i > 0 {
      assert gasUsed(versions[..i][0]).Some?;
      var rest := versions[1..][..i - 1];
      assert AllPriced(gasUsed, rest) by {
        forall j | 0 <= j < |rest| ensures gasUsed(rest[j]).Some? {
          assert rest[j] == versions[..i][j + 1];
        }
      }
      LookedUpStopsAtFailure(gasUsed, versions[1..], i - 1);
      assert versions[..i + 1] == [versions[0]] + versions[1..][..i];
    }
  }

  /** When every lookup succeeds, every version is looked up once, in order. */
  lemma {:induction false} LookedUpAll(gasUsed: GasLookup, versions: seq<nat>)
    requires AllPriced(gasUsed, versions)
    ensures LookedUp(gasUsed, versions) == versions
    decreases |versions|
  {
    if |versions| > 0 {
      assert AllPriced(gasUsed, versions[1..]) by {
        forall j | 0 <= j < |versions| - 1 ensures gasUsed(versions[1..][j]).Some? {
          assert versions[1..][j] == versions[j + 1];
        }
      }
      LookedUpAll(gasUsed, versions[1..]);
    }
  }

  /** The total of a concatenation is the sum of the totals: pricing a list
      in two parts gives the same total as pricing it in one go. */
  lemma {:induction false} TotalGasAppend(gasUsed: GasLookup, a: seq<nat>, b: seq<nat>)
    requires AllPriced(gasUsed, a) && AllPriced(gasUsed, b)
    ensures AllPriced(gasUsed, a + b)
    ensures TotalGas(gasUsed, a + b) == TotalGas(gasUsed, a) + TotalGas(gasUsed, b)
    decreases |b|
  {
    assert AllPriced(gasUsed, a + b) by {
      forall i | 0 <= i < |a + b| ensures gasUsed((a + b)[i]).Some? {
        if i >= |a| {
          assert (a + b)[i] == b[i - |a|];
        }
      }
    }
    if |b| > 0 {
      var b' := b[..|b| - 1];
      assert AllPriced(gasUsed, b') by {
        forall i | 0 <= i < |b'| ensures gasUsed(b'[i]).Some? {
          assert b'[i] == b[i];
        }
      }
      TotalGasAppend(gasUsed, a, b');
      assert (a + b)[..|a + b| - 1] == a + b';
      assert (a + b)[|a + b| - 1] == b[|b| - 1];
      assert TotalGas(gasUsed, b) == TotalGas(gasUsed, b') + gasUsed(b[|b| - 1]).value;
    } else {
      assert a + b == a;
    }
  }

  /** No version's gas exceeds the total. */
  lemma {:induction false} TotalGasBoundsEach(gasUsed: GasLookup, versions: seq<nat>, i: nat)
    requires AllPriced(gasUsed, versions) && i < |versions|
    ensures gasUsed(versions[i]).value <= TotalGas(gasUsed, versions)
    decreases |versions|
  {
    var last := |versions| - 1;
    var front := versions[..last];
    assert AllPriced(gasUsed, front) by {
      forall j | 0 <= j < |front| ensures gasUsed(front[j]).Some? {
        assert front[j] == versions[j];
      }
    }
    if i < last {
      assert front[i] == versions[i];
      TotalGasBoundsEach(gasUsed, front, i);
    }
  }

  /** Versions 1, 2 and 3 using 10, 20 and 5: a total of 35 Octa. */
  lemma ThreeVersionsExample(gasUsed: GasLookup)
    requires gasUsed(1) == Some(10) && gasUsed(2) == Some(20) && gasUsed(3) == Some(5)
    ensures Pricing(gasUsed, [1, 2, 3]) == Total(35)
    ensures LookedUp(gasUsed, [1, 2, 3]) == [1, 2, 3]
  {
    var vs: seq<nat> := [1, 2, 3];
    assert AllPriced(gasUsed, vs) by {
      forall i | 0 <= i < 3 ensures gasUsed(vs[i]).Some? {
        assert vs[i] == 1 || vs[i] == 2 || vs[i] == 3;
      }
    }
    assert vs[..2] == [1, 2] && vs[..2][..1] == [1] && vs[..2][..1][..0] == [];
    assert TotalGas(gasUsed, [1]) == 10;
    assert TotalGas(gasUsed, [1, 2]) == 30;
    assert vs[1..] == [2, 3] && vs[1..][1..] == [3];
  }

  /** The lookup of version 2 fails: versions 1 and 2 are looked up, 3 is
      not, and there is no total. */
  lemma FailedLookupExample(gasUsed: GasLookup)
    requires gasUsed(1).Some? && gasUsed(2).None?
    ensures Pricing(gasUsed, [1, 2, 3]) == LookupFailed
    ensures LookedUp(gasUsed, [1, 2, 3]) == [1, 2]
  {
    var vs: seq<nat> := [1, 2, 3];
    assert vs[1..] == [2, 3];
    assert !AllPriced(gasUsed, vs) by {
      assert gasUsed(vs[1]).None?;
    }
  }

  // ---------------------------------------------------------------------
  // Properties of a whole run
  // ---------------------------------------------------------------------

  /** An empty sender contributes no clause: the query has an empty `where`
      object and so matches every user transaction. */
  lemma EmptySenderQuery(offset: nat, limit: nat)
    ensures QueryText(Filter(Some(""), None), offset, limit)
         == HEAD + AFTER_WHERE + DecimalString(offset) + AFTER_OFFSET + DecimalString(limit) + TAIL
  {
    var none := Filter(None, None);
    EmptyFilterAddsNoClause(Filter(Some(""), None), offset, limit);
    assert FreeOfBraces(none);
    QueryTextSplices(none, offset, limit);
    assert WhereString(none) == "";
    assert HEAD + WhereString(none) == HEAD;
  }

  lemma FirstPageNumerals()
    ensures DecimalString(0) == "0" && DecimalString(PAGE_SIZE) == "99"
  {
  }

  /** The usage check looks only at whether an option was given, while the
      query looks at whether it is non-empty: a sender given as "" passes the
      check, and the first request asks for every user transaction, with an
      empty `where` object, offset 0 and limit 99. */
  method EmptySenderExample(indexer: Indexer, gasUsed: GasLookup)
    returns (outcome: Outcome, trace: seq<Request>)
    requires Exhausts(indexer, Filter(Some(""), None))
    ensures outcome != UsageError
    ensures |trace| > 0
    ensures trace[0] == IndexerQuery(HEAD + AFTER_WHERE + "0" + AFTER_OFFSET + "99" + TAIL)
  {
    var filter := Filter(Some(""), None);
    outcome, trace := Run(filter, indexer, gasUsed);
    PageQueriesAt(filter, Rounds(indexer, filter) + 1, 0);
    EmptySenderQuery(0, PAGE_SIZE);
    FirstPageNumerals();
  }
}
