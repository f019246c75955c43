# Gas cost of an account's or entry function's transactions

A model of `scripts/get_gas_cost.py`. The script adds up the gas used by every
user transaction that matches a filter: a sender address, an entry-function
id, or both. It works in three steps:

1. It builds a GraphQL query from a fixed template (`build_query`).
2. It pages through the indexer's `user_transactions` 99 rows at a time,
   starting at offset 0 and stopping at the first empty page
   (`get_transactions`).
3. It looks up each version's `gas_used` in turn and sums the results (`main`).

The model has four modules:

- `Wrappers` holds `Option`.
- `Query` holds the template, Python's `str.replace`, `", ".join` and `str(n)`
  written out on `seq<char>`, and the `BuildQuery` method.
- `Pagination` holds the `GetBatch` and `GetTransactions` methods and the
  page functions that specify them.
- `GasCost` holds the validation, the pricing loop (`Run`) and the functions
  that specify it.

The two network endpoints are parameters, not modelled code:

- `Indexer` is a function from the query text sent to the rows the indexer
  answers.
- `GasLookup` is a function from a version to its gas, or `None` where
  `get_gas_cost` raises.

The script logs every query and every looked-up version. The model returns
them instead: `queries` from `GetTransactions`, and a `trace` of
`Request`s from `Run`, in the order they are made.

`get_transactions` ends only if some page comes back empty. `GetTransactions`
therefore requires `Exhausts` (some page is empty). `Rounds` is the index of
the first empty page, so it is also the number of non-empty pages.

The three `replace` calls run one after another over the whole text. What
they produce therefore depends on the filter values:

- `QueryTextSplices`: when no value contains `{`, the query is the template
  with the where-string, `str(offset)` and `str(limit)` in its three slots.
- `PlaceholderInFilterIsSubstituted`: a sender given as `{limit}` is itself
  replaced by the page size, because `{limit}` is replaced after the
  where-string has been inserted.

The usage check and the clause building test different things:

- `main` refuses only when both options are `None` (`is None`).
- `build_query` adds a clause only for a truthy value, so an empty string
  adds none.

An empty `--sender-address ""` therefore passes the check, and the script
then queries every user transaction (`EmptySenderExample`). Two empty
strings are not rejected either: the script pages through every user
transaction.

## Model

| member | source | states |
|---|---|---|
| Query.DecimalRoundTrip | scripts/get_gas_cost.py:43-44 | `str(n)` as produced for the offset and the limit reads back as `n`, and starts with '0' only for 0 (no leading zeros) |
| Query.DecimalString | scripts/get_gas_cost.py:43-44 | `str(n)` is a non-empty string of decimal digits |
| Query.BuildQuery | scripts/get_gas_cost.py:34-45 | the query built by appending clauses, joining them and doing the three replacements is `QueryText`; with brace-free filter values it is the template with the where-string, `str(offset)` and `str(limit)` in its slots |
| Query.WhereStringCases | scripts/get_gas_cost.py:35-40 | all four cases of the where-string: empty, the sender clause alone, the entry-function clause alone, or sender then `, ` then entry function; only truthy values add a clause |
| Query.EmptyFilterAddsNoClause | scripts/get_gas_cost.py:36-40 | a sender given as "" builds the same query as no sender; with the entry function also "", the where-string is empty |
| Query.FillSplices | scripts/get_gas_cost.py:21-31 | when no inserted text has a `{` that could start a placeholder replaced after it, the three replacements, done in the script's order, put the where-string, offset and limit into the template's three slots and change nothing else |
| Query.QueryTextSplices | scripts/get_gas_cost.py:21-45 | with brace-free filter values, the query is HEAD + where-string + AFTER_WHERE + str(offset) + AFTER_OFFSET + str(limit) + TAIL |
| Query.PlaceholderInFilterIsSubstituted | scripts/get_gas_cost.py:41-45 | because the replacements run in order over the filled text, a sender given as `{limit}` is sent as `sender: {_eq: "<limit>"}` |
| Query.TemplateInert | scripts/get_gas_cost.py:21-31 | no fixed piece of the template can start any of the three placeholders, and the placeholders still to be replaced (`{offset}`, `{limit}`) cannot start the ones replaced before them |
| Query.Replace | scripts/get_gas_cost.py:42-44 | `str.replace`: every non-overlapping occurrence, left to right; replacing a pattern by itself changes nothing, and a replacement of the same length keeps the length; a placeholder between inert texts is spliced (`ReplaceInSlot`) |
| Query.Join | scripts/get_gas_cost.py:40 | `", ".join`: the result starts with the first part and ends with the last; pinned for the zero-, one- and two-clause cases by `WhereStringCases` |
| Query.ReplaceSkipsInert | scripts/get_gas_cost.py:42-44 | `str.replace` leaves a prefix in which the pattern cannot start unchanged and then continues after it |
| Pagination.GetBatch | scripts/get_gas_cost.py:48-62 | the query sent is `build_query` of the filter, offset and limit, and the rows returned are the indexer's answer to that text |
| Pagination.GetTransactions | scripts/get_gas_cost.py:65-76 | there are exactly `Rounds + 1` requests; the k-th has offset 99·k and limit 99; the rows yielded are the pages before the first empty one, concatenated in order |
| Pagination.YieldAll | scripts/get_gas_cost.py:74-75 | yielding a page's rows one by one appends exactly that page, in order |
| Pagination.PageQueriesAt | scripts/get_gas_cost.py:66-76 | the k-th request of a run of n has offset 99·k and limit 99 |
| Pagination.RoundsIs | scripts/get_gas_cost.py:68-73 | when page n is empty and every earlier page is not, paging ends after exactly n non-empty pages |
| Pagination.FirstPageEmpty | scripts/get_gas_cost.py:68-73 | an empty first page gives one request and no rows |
| Pagination.PagesBeforePrefix | scripts/get_gas_cost.py:74-75 | the rows yielded after m pages are a prefix of those yielded after n ≥ m pages |
| Pagination.PagesBeforeLength | scripts/get_gas_cost.py:68-76 | n non-empty pages yield at least n rows, and at most 99·n when the indexer keeps to the limit |
| Pagination.RequestCountBounds | scripts/get_gas_cost.py:66-76 | the number of non-empty pages (requests − 1) is at most the number of rows, and the rows are at most 99 per non-empty page when the indexer keeps to the limit |
| Pagination.ThreePagesExample | scripts/get_gas_cost.py:65-76 | pages of 99, 99, 40 and 0 rows give four requests at offsets 0, 99, 198 and 297, and 238 rows |
| Pagination.FirstEmptyPageExists | scripts/get_gas_cost.py:68-73 | if some page is empty, there is a first empty page |
| GasCost.Versions | scripts/get_gas_cost.py:102 | one version per transaction, in order |
| GasCost.IndexerRequests | scripts/get_gas_cost.py:48-50 | one indexer request per query, in order |
| GasCost.LookupRequests | scripts/get_gas_cost.py:108-110 | one lookup request per version, in order |
| GasCost.Run | scripts/get_gas_cost.py:94-111 | usage error exactly when both options are `None`, with no request; otherwise every page request and then a lookup for each version in order, up to the first failing one; the result is the in-order total, or a failure if any lookup fails |
| GasCost.LookedUpStopsAtFailure | scripts/get_gas_cost.py:108-111 | when the i-th lookup is the first to fail, exactly the versions up to and including it are looked up and there is no total |
| GasCost.LookedUpAll | scripts/get_gas_cost.py:108-111 | when every lookup succeeds, every version is looked up once, in order |
| GasCost.TotalGasAppend | scripts/get_gas_cost.py:107-111 | the total over a concatenation is the sum of the two totals |
| GasCost.TotalGasBoundsEach | scripts/get_gas_cost.py:107-111 | no single version's gas exceeds the total |
| GasCost.ThreeVersionsExample | scripts/get_gas_cost.py:107-111 | versions 1, 2, 3 using 10, 20 and 5 total 35 Octa, each looked up once |
| GasCost.FailedLookupExample | scripts/get_gas_cost.py:79-85 | if the lookup of version 2 raises, versions 1 and 2 are looked up, 3 is not, and there is no total |
| GasCost.EmptySenderQuery | scripts/get_gas_cost.py:36-45 | a sender given as "" gives the query with an empty `where` object |
| GasCost.EmptySenderExample | scripts/get_gas_cost.py:94-98 | a sender given as "" passes the usage check, and the first request asks for every user transaction at offset 0, limit 99 |

## Left out

- HTTP: the request objects, headers, `urlopen` and the endpoint URLs. The two endpoints are the parameters `Indexer` and `GasLookup`.
- JSON: encoding the request body and decoding the answers. The indexer oracle answers rows directly.
- Indexer failures: a failed request, or a reply without `data.user_transactions`, is not modelled. The indexer is a total function.
- `int(data["gas_used"])`: the lookup oracle gives a `nat` or `None`. A negative or non-integer `gas_used` is not modelled.
- `parse_args`, `--network` and `--debug`: the filter is given directly as `Filter`.
- Run: models `main` without `-d` only. With `-d`, line 92 calls `logging.setLevel`, which the `logging` module does not define; that call raises before the usage check.
- Logging: the logged queries and versions are returned as `queries` and `trace` instead. The "Found N transactions" line and the two total lines are not modelled.
- The division by 1e8 for the APT figure: floating point, report only.
- `sys.exit` and the exit status: `Outcome` stands for them. `UsageError` is `return 1`, `LookupFailed` is an exception propagating out of `main`, and `Total` is the implicit successful exit.
- The laziness of the `get_transactions` generator. `main` materialises the whole list before pricing (line 102), so the model builds the full sequence first.
- Replace: requires a non-empty pattern. The script only replaces the three fixed placeholders, which are all non-empty.
- GetTransactions: requires that some page is empty. The script loops forever on an indexer that never answers an empty page, and that run is not modelled.

