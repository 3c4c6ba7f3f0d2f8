# Search-and-resubmit pipeline of the portal GraphQL examples, in Dafny

This project models the one stateful workflow of the portal GraphQL
examples: `examples/resubmitFlowsBasedOnSearch.js`. The script works through
these steps:

1. It pages through a flow-execution search on the portal's GraphQL
   endpoint. A cursor links one page to the next.
2. It flattens each page's per-trading-partner result blocks into one list.
   Each record is tagged with its partner's identity.
3. It sorts the records by `start_date`, oldest first, and applies a filter
   predicate.
4. It refuses to go on if two records share an `invocation_uuid`.
5. It resubmits the records one at a time. After each answered request it
   rewrites a ledger of the ids resubmitted so far.

The model is functional where the script computes and imperative where it
loops:

- Records, partners, pages and replies are datatypes (`Flow`).
- The network is replaced by two oracles, explained under "Left out".
- The two files the script writes are returned values. One is the
  `executions.json` snapshot. The other is the `resubmitted.json` ledger,
  whose earlier contents are an input.

Modules, in data-flow order:

- `Flow`: the entities, `Result`/`Outcome`, and JavaScript truthiness of an
  optional string.
- `Seqs`: concatenation of a list of lists, and `filter`.
- `Normalize`: `makeExecutions`. It is written as the source's `reduce`
  (`Reduce`) and proved equal to a reference concatenation (`PartnerLists`,
  `Flatten`).
- `Pagination`: the `cursor` variable of `getPage` and the do-while loop of
  `getExecutions` (`GetExecutions`). The loop is proved equal to a recursive
  reference, `Crawl`.
- `Ordering`: lodash `sortBy('start_date')` and `filter(filterFunction)`,
  that is `getAll` after the search. It includes a proof that a stable sort
  has only one possible result. That is why an insertion sort can stand in
  for lodash's own algorithm.
- `Integrity`: lodash `uniq` and the duplicate check of `doWork`.
- `Resubmission`: the ledger loop `resubmitAll`.
- `Driver`: `getAll` as a whole, and `doWork`.

The model follows the code in these places:

- A page without `data.company.tradingPartners` is not a recoverable anomaly.
  Neither is a partner without `flowExecutionSearch`. The code logs such a
  page or partner and then dereferences the missing field, which throws, so
  the model ends the run with `BadPage` or `BadPartner`. A partner whose
  search block has no `data` list fails too (`MissingData`), without a log
  line.
- Any truthy `errors` member aborts the search, an empty array included.
  The code tests `if (page.errors)`, so an empty array aborts while `null`,
  `false`, `""` or `0` do not. In the model `Page.errors` is None when the
  member is absent or falsy.
- The reply to a resubmit request is never inspected. Any answered request
  lands in the ledger, including one whose body reports that nothing was
  resubmitted.
- The first ledger write replaces whatever `resubmitted.json` held before
  the run. Until then, the earlier file is untouched.

One observation about the source is not a modelling choice. The search query
(`FE_QUERY`, lines 47-93) does not select `partner_uuid` or `partner_name` on
`tradingPartners`. So the values spread over each record at lines 156-160 are
`undefined` in practice, and they overwrite the record's own `partner_uuid`.
The model keeps both partner fields optional and copies whatever the partner
carries, as the code does.

## Model

| member | source | states |
|---|---|---|
| `Normalize.Augment` | examples/resubmitFlowsBasedOnSearch.js:156-160 | The tagged record carries the partner's `partner_uuid` and `partner_name`, whatever the record held before, and is otherwise the record unchanged. |
| `Normalize.PartnerExecutions` | examples/resubmitFlowsBasedOnSearch.js:153-160 | A partner yields records exactly when it has a search block with a `data` list. The records are its data in order, each tagged with the partner. A missing block is `BadPartner` and a missing list is `MissingData`. |
| `Normalize.ReduceMatchesReference` | examples/resubmitFlowsBasedOnSearch.js:152-165 | The left fold over the partners succeeds exactly when every partner can be read. It then equals the accumulator followed by the in-order concatenation of every partner's tagged records. Otherwise it fails with the fault of the first unreadable partner, and every partner before that one was readable. |
| `Normalize.MakeExecutionsSpec` | examples/resubmitFlowsBasedOnSearch.js:148-166 | A page without `tradingPartners` fails with `BadPage` and never returns records. A page with partners succeeds exactly when all of them can be read, and returns the concatenation of their tagged records. Otherwise the first unreadable partner decides the fault. |
| `Normalize.MakeExecutionsLength` | examples/resubmitFlowsBasedOnSearch.js:152-165 | The output has exactly as many records as the partners' `data` lists hold together. |
| `Normalize.MakeExecutionsPlacement` | examples/resubmitFlowsBasedOnSearch.js:152-165 | Record `j` of partner `i` sits at the position right after all records of partners `0..i-1`, tagged with partner `i`. So the output is in partner order and then record order. |
| `Normalize.MakeExecutionsOrigin` | examples/resubmitFlowsBasedOnSearch.js:156-160 | Every output record has the `partner_uuid` and `partner_name` of a partner of the page, and agrees in every other field with a record of that partner's `data`. |
| `Normalize.FlattenPartnerListsOrigin` | examples/resubmitFlowsBasedOnSearch.js:152-165 | Every element of the reference concatenation comes from some record of some partner, tagged with that partner's identity. |
| `Pagination.CursorVariable` | examples/resubmitFlowsBasedOnSearch.js:133-135 | A request carries a `cursor` variable exactly when the loop's cursor is truthy, and then it is that cursor. A falsy or missing cursor sends no variable, so the variable sent is never falsy. |
| `Pagination.GetExecutions` | examples/resubmitFlowsBasedOnSearch.js:168-193 | The first request carries no cursor. Each later request carries the truthy cursor of the last record of the page before it, so no falsy cursor is ever sent. Every page but the last had records and a truthy final cursor. A successful search ends on a page that is empty or whose last cursor is falsy, and returns all pages' records concatenated in order. A failed request, a page with a truthy `errors` member or an unreadable page ends the search with exactly that fault and returns no partial list. The result equals the reference `Crawl`. |
| `Pagination.CrawlFuelMonotone` | examples/resubmitFlowsBasedOnSearch.js:173-191 | The request bound only cuts the search short. A search that finished within some bound gives the same result under every larger bound. |
| `Pagination.CursorCycleNeverEnds` | examples/resubmitFlowsBasedOnSearch.js:186-191 | A server that answers cursor `c` with records whose last one carries `c` again keeps the loop asking forever. No bound is enough. |
| `Pagination.FetchNeverRunsOutOfFuel` | examples/resubmitFlowsBasedOnSearch.js:176-181 | The model-only `OutOfFuel` fault never comes from a single request. |
| `Seqs.Filter` | examples/resubmitFlowsBasedOnSearch.js:203 | Every kept element is an input element the predicate accepts, and every accepted input element is kept. The result is no longer than the input. |
| `Seqs.FilterCount` | examples/resubmitFlowsBasedOnSearch.js:203 | Each element is kept exactly as many times as it occurs in the input when the predicate accepts it, and not at all otherwise. So filtering neither merges nor invents duplicates ahead of the id check. |
| `Seqs.FilterAppend` | examples/resubmitFlowsBasedOnSearch.js:203 | Filtering a concatenation filters each part and concatenates the results. |
| `Seqs.FilterSingleton` | examples/resubmitFlowsBasedOnSearch.js:203 | A single element is kept exactly when the predicate accepts it. Together with `FilterAppend` this fixes the whole result, so the kept elements stay in input order. |
| `Ordering.SortByStartDateIsStable` | examples/resubmitFlowsBasedOnSearch.js:203 | `sortBy('start_date')` returns a permutation of its input that is ascending by `start_date`. For every date, the records with that date keep their discovery order. |
| `Ordering.StableSortUnique` | examples/resubmitFlowsBasedOnSearch.js:203 | Two lists that are both ascending by `start_date` and agree, date by date, on the order of the records with that date are equal. So every stable sort gives the same result. |
| `Ordering.GetAllSpec` | examples/resubmitFlowsBasedOnSearch.js:201-204 | The working set is ascending by `start_date`. It holds exactly the records the predicate accepts, each as often as in the search result. |
| `Ordering.GetAllStable` | examples/resubmitFlowsBasedOnSearch.js:203 | For every date, the working set's records with that date are the accepted searched records with that date, in discovery order. |
| `Ordering.GetAllFilterFirst` | examples/resubmitFlowsBasedOnSearch.js:203 | Sorting and then filtering, as `getAll` does, gives the same list as filtering and then sorting. |
| `Ordering.GetAllDefaultKeepsEverything` | examples/resubmitFlowsBasedOnSearch.js:195-199 | Under the default `filterFunction` the working set is the sorted search result, a permutation of it that drops nothing. |
| `Integrity.Uniq` | examples/resubmitFlowsBasedOnSearch.js:241 | `uniq` keeps the same ids with none twice. Its result is as long as the input exactly when the input has no repeated id. |
| `Integrity.UniqCountsDistinctIds` | examples/resubmitFlowsBasedOnSearch.js:241 | The length of `uniq`'s result is the number of distinct ids. |
| `Integrity.CheckUnique` | examples/resubmitFlowsBasedOnSearch.js:241-244 | The check fails exactly on lists in which two records share an `invocation_uuid`. The failure reports the record count and the distinct count, and the distinct count is the smaller. |
| `Resubmission.ResubmitAll` | examples/resubmitFlowsBasedOnSearch.js:226-235 | Requests follow the working set's order, one per record. After `k` answered requests the ledger is the first `k` ids, whatever the replies said. A failing request `k+1` ends the loop with the ledger at `k` entries. The ledger file holds the ledger once anything was answered and is untouched before that. The loop completes exactly when every request is answered. |
| `Driver.GetAllExecutions` | examples/resubmitFlowsBasedOnSearch.js:201-204 | `getAll` fails exactly when the search does, with the same fault. Otherwise it returns the ordered and filtered search result. |
| `Driver.ProcessWorkingSet` | examples/resubmitFlowsBasedOnSearch.js:241-248 | Duplicate ids fail the run with a fault carrying the record count and the distinct-id count, which is smaller, before the snapshot is written and before any resubmit request. Otherwise the snapshot is the whole working set and the requests are a prefix of its ids, in order. The run succeeds exactly when every request is answered, and then returns the working set's size with the ledger holding all its ids. Otherwise the last request made is the first that failed, the run fails with that request's fault, and the ledger holds the ids answered before it. |
| `Driver.DoWork` | examples/resubmitFlowsBasedOnSearch.js:237-249 | A failed search ends the run with its fault: no snapshot, no request, ledger file untouched. Duplicate ids end it the same way, with a fault carrying the record count and the distinct-id count of the ordered and filtered working set. Otherwise the snapshot is the working set and the requests are a prefix of its ids, in order. The run succeeds exactly when every request is answered, and then returns the working set's size with the ledger holding all its ids. Otherwise the last request made is the first that failed, the run fails with that request's fault, and the ledger holds the ids answered before it. |

## Left out

- Authentication (`getAuthToken`, lines 114-122) is not part of this model. The two oracles stand for endpoints reached with whatever token the run obtained. A transport error or an unparsable body from the token endpoint ends the real run before any search, and that is not modelled. A token body without `access_token` does not end the run: the searches go out with `Bearer undefined`, and their failures arrive through the server oracle.
- Transport: `request`, `JSON.parse` and the HTTP options (lines 102-112, 136-145, 206-224). A failed request and an unparsable body are both one `TransportFailed`/`CallFailed` value. The search criteria, the date window and the GraphQL query texts are fixed for a run, so they are folded into the server oracle, which maps the `cursor` variable to a response.
- Pagination.GetExecutions: the source loops for as long as the server hands out truthy cursors. The model bounds the number of search requests by `fuel` and reports `OutOfFuel` when the bound is reached. `CrawlFuelMonotone` shows the bound never changes a result that fits within it, and `CursorCycleNeverEnds` shows a server that makes the source loop forever.
- The server oracle is a function of the cursor alone. A server that answers the same cursor differently on a second request is not modelled. The loop never sends the same cursor twice unless the server repeats it.
- Resubmission.ResubmitAll: the resubmit oracle is a function of the invocation id alone.
- File writes: `executions.json` and `resubmitted.json` are values (the snapshot and the ledger contents), not JSON text on disk. Pretty-printing and write failures are not modelled.
- Logging (`console.log`, `console.error`) and the page counter, which only feeds the log.
- `start_date` is an opaque string compared lexicographically by character. JavaScript compares UTF-16 code units, which differs only for characters outside the Basic Multilingual Plane. Lodash's special placement of `undefined`/`null` sort keys is not modelled, because every record has a `start_date` string.
- `flatten()` in `getAll` (line 203) leaves a list of records unchanged, so it is not modelled as a separate step.
- The unused response fields (`recordsReturned`, `totalRecords`, `hasMoreRecords`, `searchCapped`, `my_role`, `company_role`) are not modelled, because the loop never reads them.
- `examples/getAttachment.js` and `examples/addUser.js` are not part of this model. Each is a single authenticated request with no state or data logic.
