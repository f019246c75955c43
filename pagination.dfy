/** Paging through the indexer: `get_batch_of_transactions` and the
    `get_transactions` generator of scripts/get_gas_cost.py.  The indexer
    endpoint is an oracle from the query text sent to the rows answered. */
module Pagination {
  import opened Query

  /** A row of `user_transactions`; the query selects only its version. */
  datatype Transaction = Transaction(version: nat)

  /** The indexer as the script sees it: the rows it answers to a query. */
  type Indexer = string -> seq<Transaction>

  /** The fixed page size. */
  const PAGE_SIZE: nat := 99

  /** The rows of the k-th page request (0-based): offset `99 * k`, limit 99. */
  function Page(indexer: Indexer, filter: Filter, k: nat): seq<Transaction> {
    indexer(QueryText(filter, PAGE_SIZE * k, PAGE_SIZE))
  }

  /** Some page comes back empty, so paging stops. */
  ghost predicate Exhausts(indexer: Indexer, filter: Filter) {
    exists k: nat :: Page(indexer, filter, k) == []
  }

  lemma {:induction false} FirstEmptyPageExists(indexer: Indexer, filter: Filter, k: nat)
    requires Page(indexer, filter, k) == []
    ensures exists m: nat :: Page(indexer, filter, m) == []
                             && forall j: nat :: j < m ==> Page(indexer, filter, j) != []
    decreases k
  {
    if exists j: nat :: j < k && Page(indexer, filter, j) == [] {
      var j: nat :| j < k && Page(indexer, filter, j) == [];
      FirstEmptyPageExists(indexer, filter, j);
    }
  }

  /** The number of non-empty pages before the first empty one. */
  ghost function Rounds(indexer: Indexer, filter: Filter): (n: nat)
    requires Exhausts(indexer, filter)
    ensures Page(indexer, filter, n) == []
    ensures forall j: nat :: j < n ==> Page(indexer, filter, j) != []
  {
    var k: nat :| Page(indexer, filter, k) == [];
    FirstEmptyPageExists(indexer, filter, k);
    var m: nat :| Page(indexer, filter, m) == []
                  && forall j: nat :: j < m ==> Page(indexer, filter, j) != [];
    m
  }

  /** The rows of the first n pages, page after page. */
  function PagesBefore(indexer: Indexer, filter: Filter, n: nat): seq<Transaction>
    decreases n
  {
    if n == 0 then [] else PagesBefore(indexer, filter, n - 1) + Page(indexer, filter, n - 1)
  }

  /** Everything the generator yields. */
  ghost function AllTransactions(indexer: Indexer, filter: Filter): seq<Transaction>
    requires Exhausts(indexer, filter)
  {
    PagesBefore(indexer, filter, Rounds(indexer, filter))
  }

  /** `get_batch_of_transactions`: build the query, send it, return the rows.
      `query` is the text the script logs before sending it. */
  method GetBatch(indexer: Indexer, filter: Filter, offset: nat, limit: nat)
    returns (rows: seq<Transaction>, query: string)
    ensures query == QueryText(filter, offset, limit)
    ensures rows == indexer(query)
  {
    query := BuildQuery(filter, offset, limit);
    rows := indexer(query);
  }

  /** The texts of the first n page requests: offsets 0, 99, ..., limit 99. */
  function PageQueries(filter: Filter, n: nat): seq<string>
    decreases n
  {
    if n == 0 then [] else PageQueries(filter, n - 1) + [QueryText(filter, PAGE_SIZE * (n - 1), PAGE_SIZE)]
  }

  /** `get_transactions`: request pages at offsets 0, 99, 198, ... with limit
      99, yield each page's rows in order and stop at the first empty page.
      `queries` lists the page requests in the order they are made. */
  method GetTransactions(indexer: Indexer, filter: Filter)
    returns (transactions: seq<Transaction>, queries: seq<string>)
    requires Exhausts(indexer, filter)
    ensures queries == PageQueries(filter, Rounds(indexer, filter) + 1)
    ensures transactions == AllTransactions(indexer, filter)
  {
    var limit := PAGE_SIZE;
    var offset := 0;
    transactions, queries := [], [];
    ghost var n := Rounds(indexer, filter);
    while true
      invariant offset == PAGE_SIZE * |queries|
      invariant |queries| <= n
      invariant queries == PageQueries(filter, |queries|)
      invariant transactions == PagesBefore(indexer, filter, |queries|)
      decreases n - |queries|
    {
      var versions, query := GetBatch(indexer, filter, offset, limit);
      ghost var round := |queries|;
      NextRequest(indexer, filter, round, queries, query, versions);
      queries := queries + [query];
      if versions == [] {
        break;
      }
      transactions := YieldAll(transactions, versions);
      offset := offset + limit;
    }
  }

  /** One round of the loop: the request made is the next page request, a
      non-empty answer is the next page and an empty one ends paging. */
  lemma NextRequest(indexer: Indexer, filter: Filter, round: nat, queries: seq<string>,
                    query: string, versions: seq<Transaction>)
    requires Exhausts(indexer, filter) && round <= Rounds(indexer, filter)
    requires queries == PageQueries(filter, round)
    requires query == QueryText(filter, PAGE_SIZE * round, PAGE_SIZE) && versions == indexer(query)
    ensures queries + [query] == PageQueries(filter, round + 1)
    ensures versions == Page(indexer, filter, round)
    ensures versions == [] <==> round == Rounds(indexer, filter)
  {
  }

  /** `for version in versions: yield version`. */
  method YieldAll(yielded: seq<Transaction>, versions: seq<Transaction>)
    returns (out: seq<Transaction>)
    ensures out == yielded + versions
  {
    out := yielded;
    for i := 0 to |versions|
      invariant out == yielded + versions[..i]
    {
      out := out + [versions[i]];
    }
    assert versions[..|versions|] == versions;
  }

  /** Rounds is the index of the first empty page, whichever it is. */
  lemma RoundsIs(indexer: Indexer, filter: Filter, n: nat)
    requires Page(indexer, filter, n) == []
    requires forall j: nat :: j < n ==> Page(indexer, filter, j) != []
    ensures Exhausts(indexer, filter) && Rounds(indexer, filter) == n
  {
  }

  /** The k-th page request has offset 99 * k and limit 99. */
  lemma {:induction false} PageQueriesAt(filter: Filter, n: nat, k: nat)
    requires k < n
    ensures |PageQueries(filter, n)| == n
    ensures PageQueries(filter, n)[k] == QueryText(filter, PAGE_SIZE * k, PAGE_SIZE)
    decreases n
  {
    var front := PageQueries(filter, n - 1);
    var last := QueryText(filter, PAGE_SIZE * (n - 1), PAGE_SIZE);
    assert PageQueries(filter, n) == front + [last];
    if n > 1 {
      PageQueriesAt(filter, n - 1, if k < n - 1 then k else 0);
    }
    assert |front| == n - 1;
    if k < n - 1 {
      assert (front + [last])[k] == front[k];
    } else {
      assert (front + [last])[k] == last;
    }
  }

  // ---------------------------------------------------------------------
  // Properties of paging
  // ---------------------------------------------------------------------

  /** An empty first page: one request, nothing yielded. */
  lemma FirstPageEmpty(indexer: Indexer, filter: Filter)
    requires Page(indexer, filter, 0) == []
    ensures Exhausts(indexer, filter)
    ensures Rounds(indexer, filter) == 0
    ensures AllTransactions(indexer, filter) == []
  {
  }

  /** The rows yielded so far only ever grow at the end. */
  lemma {:induction false} PagesBeforePrefix(indexer: Indexer, filter: Filter, m: nat, n: nat)
    requires m <= n
    ensures PagesBefore(indexer, filter, m) <= PagesBefore(indexer, filter, n)
    decreases n - m
  {
    if m < n {
      PagesBeforePrefix(indexer, filter, m, n - 1);
    }
  }

  /** Each request but the last returned at least one row, and none more
      than the page size when the indexer keeps to the limit: so the
      number of requests is between |rows| / 99 + 1 and |rows| + 1. */
  lemma {:induction false} PagesBeforeLength(indexer: Indexer, filter: Filter, n: nat)
    requires forall j: nat :: j < n ==> Page(indexer, filter, j) != []
    ensures n <= |PagesBefore(indexer, filter, n)|
    ensures (forall j: nat :: j < n ==> |Page(indexer, filter, j)| <= PAGE_SIZE) ==>
              |PagesBefore(indexer, filter, n)| <= PAGE_SIZE * n
    decreases n
  {
    if n > 0 {
      PagesBeforeLength(indexer, filter, n - 1);
    }
  }

  lemma RequestCountBounds(indexer: Indexer, filter: Filter)
    requires Exhausts(indexer, filter)
    ensures Rounds(indexer, filter) <= |AllTransactions(indexer, filter)|
    ensures (forall j: nat :: |Page(indexer, filter, j)| <= PAGE_SIZE) ==>
              |AllTransactions(indexer, filter)| <= PAGE_SIZE * Rounds(indexer, filter)
  {
    PagesBeforeLength(indexer, filter, Rounds(indexer, filter));
  }

  /** Pages of 99, 99, 40 and 0 rows: four requests at offsets 0, 99, 198
      and 297, and 238 rows. */
  method ThreePagesExample(indexer: Indexer, filter: Filter)
    returns (transactions: seq<Transaction>, queries: seq<string>)
    requires |Page(indexer, filter, 0)| == 99 && |Page(indexer, filter, 1)| == 99
    requires |Page(indexer, filter, 2)| == 40 && Page(indexer, filter, 3) == []
    ensures queries == [QueryText(filter, 0, 99), QueryText(filter, 99, 99),
                        QueryText(filter, 198, 99), QueryText(filter, 297, 99)]
    ensures |transactions| == 238
  {
    RoundsIs(indexer, filter, 3);
    transactions, queries := GetTransactions(indexer, filter);
    assert |PagesBefore(indexer, filter, 1)| == 99;
    assert |PagesBefore(indexer, filter, 2)| == 198;
    assert PageQueries(filter, 2) == [QueryText(filter, 0, 99), QueryText(filter, 99, 99)];
    assert PageQueries(filter, 3) == PageQueries(filter, 2) + [QueryText(filter, 198, 99)];
  }
}
