# AmazonBookList: a verified model of the fetch-and-merge engine

AmazonBookList is a PhantomJS script (`amazon.js`). It logs in to the Amazon
UK site and rebuilds a Kindle ownership list from an internal endpoint. That
endpoint returns at most 1000 records for any one sort order. The script pages
through the list under up to six sort orders (both directions of date, title
and author), appends every page, and removes duplicates. Duplicates share an
identity key, which is `orderDetailURL + asin`. It then writes the list as
JSON text and as CSV.

This project models that engine in Dafny and proves its properties:

- `books.dfy` (module `Books`): the item record, the identity key, and `uniq`.
  `uniq` is a `Dedup` specification plus the `Uniq` loop with its `seen`
  dictionary.
- `plan.dfy` (module `Plan`): sort orders, batch size 50, the 1000-record
  ceiling, and the plan chosen by step 4.
- `args.dfy` (module `Args`): the command-line check, as written and as
  corrected (see Findings).
- `csv.dfy` (module `Csv`): `writecsv` as nested loops, with a reader for the
  format, to prove that quoting round-trips.
- `fetch.dfy` (module `Fetch`): `getbookbatch`.
  - It is specified per order (`FetchOrder`) and per plan (`MergeOrders`, `Run`).
  - `Advance` is one response callback.
  - `GetBookBatch` is the recursion written as a loop over an endpoint oracle,
    proved equal to `Run`.
- `scheduler.dfy` (module `Scheduler`): the global state as a `Runner`
  class. It covers `steprunner`, the page-load events, and the asynchronous
  batch callback. Module `SchedulerScenario` walks one `-latest` run.
- `wrappers.dfy`: `Option`.

The endpoint is a function `Request -> Response`. `Response` is either
`LoadFailed` (the page status was not success) or
`Reply(success, items, hasMoreItems)`. `success` is false whenever the flag is
missing or is not exactly `true`.

`steprunner` does not check that `stepindex` is in range, so `steps[6]()`
would throw. That tick cannot happen here: step 5 exits, and `Valid()` gives
`stepIndex == 6 ==> exited`.

## Model

| member | source | states |
|---|---|---|
| `Books.Uniq` | amazon.js:203-208 | the filter, with `seen` as a string map, returns `Dedup(a)`, the left-to-right first-occurrence specification that the lemmas below characterise |
| `Books.DedupKeys` | amazon.js:203-208 | every key present in the input is present in the result, and no other key |
| `Books.DedupDistinct` | amazon.js:203-208 | the result holds no two items with equal `orderDetailURL + asin` |
| `Books.DedupKeepsFirstOccurrences` | amazon.js:205-206 | the result is the input's subsequence at strictly increasing positions, and those positions are exactly the first occurrences of their keys |
| `Books.FirstOccurrenceWins` | amazon.js:205-206 | each survivor is an input item that is the first with its key |
| `Books.DedupOfDistinct` | amazon.js:203-208 | an input without duplicate keys is returned unchanged |
| `Books.DedupIdempotent` | amazon.js:203-208 | deduplicating twice equals deduplicating once |
| `Books.DedupAppendSeen` | amazon.js:205-206 | appending items whose keys are all present already changes nothing |
| `Books.DedupAbsorb` | amazon.js:313-320 | deduplicating before appending more does not change the final deduplication |
| `Books.DedupAppendDisjoint` | amazon.js:203-208 | with disjoint keys the two parts dedupe independently, and two duplicate-free lists keep `\|A\| + \|B\|` items |
| `Books.KeyCollision` | amazon.js:206 | the separator-less key merges two items with different (order URL, ASIN) pairs |
| `Books.KeyInjectiveOnFixedLengthAsin` | amazon.js:206 | with ASINs of equal length, equal keys mean equal order URL and ASIN |
| `Plan.FetchPlan` | amazon.js:176-183 | one order with `-latest`, otherwise six; always DESC/DATE first; the full plan is DESC then ASC of DATE, TITLE, AUTHOR in that order |
| `Plan.FullPlanCoversEveryOrder` | amazon.js:177-183 | the full plan holds every (direction, field) pair exactly once, and the `-latest` plan is its head |
| `Args.ParseArgsAsWritten` | amazon.js:47-58 | as written, accepted exactly when there are 3 entries, or 4 with `-latest` first; `latest` is set exactly when the first argument is `-latest` |
| `Args.AsWrittenAcceptsMissingPassword` | amazon.js:47-54 | `amazon.js -latest user` passes the check with an `undefined` password |
| `Args.ParseArgs` | amazon.js:47-58 | accepted exactly for two positional arguments, or `-latest` and two; email and password are the last two and `latest` is set exactly with four |
| `Args.ParseArgsRefinesAsWritten` | amazon.js:47-58 | the corrected check agrees with the written one on everything it accepts, and rejects only the 3-entry `-latest` shape, whose password is missing |
| `Csv.WriteCsv` | amazon.js:215-238 | the text written is the header line followed by one row per book |
| `Csv.AppendRows` | amazon.js:219-238 | the outer loop appends one row per book, in order, to what `out` already holds |
| `Csv.AppendRow` | amazon.js:220-237 | the inner loop appends the six escaped, quoted, comma-separated fields and `\n` |
| `Csv.QuoteRoundTrip` | amazon.js:229-235 | a field with its `"` doubled, inside quotes, reads back as the original value |
| `Csv.RowRoundTrip` | amazon.js:228-237 | a written row reads back as its fields, with the rest of the text untouched |
| `Csv.RowsRoundTrip` | amazon.js:219-238 | the rows read back as the six fields of every book, in order |
| `Csv.CsvRoundTrip` | amazon.js:215-238 | the whole CSV text parses back, after its header, to the six fields of every book in order |
| `Fetch.Advance` | amazon.js:298-331 | a callback fails exactly on an unsuccessful response. A next page keeps the order, adds `bsize` to the offset and appends the page. A next order drops the plan head, restarts at 0 and dedupes. Finishing happens only on the last order, with a duplicate-free list |
| `Fetch.AdvanceOrderEnd` | amazon.js:311-327 | when an order ends on a successful response, the call that follows (next order at offset 0, or the final write) receives the deduplication of the accumulator plus the last page. That list keeps every book key and repeats none |
| `Fetch.ResumeStep` | amazon.js:298-331 | one callback agrees with the per-order specification: the rest of the run is this request followed by the rest from the next call |
| `Fetch.GetBookBatch` | amazon.js:262-334 | the loop over the endpoint returns exactly the requests and the outcome of `Run` |
| `Fetch.FetchOrderShape` | amazon.js:298-310 | within one order, offsets start at `start`, step by `bsize` and stay below 1000. A next page follows only a successful "more" response with `start + bsize < 1000`. The order fails exactly when its last response did. Its items are all pages' items in order |
| `Fetch.MergeOrdersRequests` | amazon.js:308-316 | a merge from plan entry `i` starts at offset 0 of that entry. Every request uses the batch size, is below the ceiling and is for the plan entry at its position. Each later request follows a success: as the next page of the same entry, at the same position, if there were more items and room below the ceiling; otherwise at offset 0 of the next plan entry, one position on. A completed merge ends on the last entry, and its last response had no more items or no room below the ceiling. It fails exactly as its last response |
| `Fetch.RunVisitsPlanInOrder` | amazon.js:298-331 | a whole run walks the plan in order: it opens with the plan head at offset 0, pages each order, moves to `Request(plan[p + 1], 0, bsize)` after order `p` ends. A completed run has reached the last entry and stopped only on a response with no more items or no room below the ceiling. Together these fix a run's requests completely |
| `Fetch.MergeOrdersBooks` | amazon.js:313-320 | a completed run returns the deduplication of the accumulator followed by every page's items |
| `Fetch.RunRequestsBelowCeiling` | amazon.js:308-309 | no request of a run has an offset of 1000 or more |
| `Fetch.RunResult` | amazon.js:298-330 | all requests but the last succeeded, and a run aborts exactly when the last failed. A completed run is duplicate-free and carries exactly the keys of all items any page returned |
| `Fetch.SingleOrderPlan` | amazon.js:313-320 | a one-order plan is one pagination followed by one deduplication |
| `Fetch.SinglePageScenario` | amazon.js:308-325 | a first page saying "no more" gives exactly one request and that page deduplicated |
| `Fetch.AlwaysMoreFrom` | amazon.js:308-309 | with an endpoint always saying "more" and filling pages, from offset `50m` there are `20 - m` requests at consecutive multiples of 50 |
| `Fetch.AlwaysMoreScenario` | amazon.js:176-187 | with batch size 50 and "more" every time, one order makes exactly 20 requests at 0, 50, ..., 950 and returns 1000 items |
| `Fetch.RepeatedItemsMergeOnce` | amazon.js:313-320 | two orders returning the same items merge into the first order's items |
| `Scheduler.Runner.constructor` | amazon.js:42 | starts at step 0 with both flags clear, nothing written and no request sent |
| `Scheduler.Runner.OnLoadStarted` | amazon.js:67-70 | raises `loadInProgress` and changes nothing else |
| `Scheduler.Runner.OnLoadFinished` | amazon.js:77-80 | clears `loadInProgress` and changes nothing else |
| `Scheduler.Runner.OnNavigationFailed` | amazon.js:96-101 | a failed page open ends the run and changes nothing else |
| `Scheduler.Runner.Tick` | amazon.js:341-346 | with both flags clear, runs exactly one step and increments `stepIndex`; otherwise leaves all state unchanged. Step 4 raises `multiLoad` and sends the first request, step 5 exits |
| `Scheduler.Runner.StartFetch` | amazon.js:174-188 | chooses the plan for `latest` with batch size 50, raises `multiLoad` and sends the request at offset 0 of the plan head |
| `Scheduler.Runner.OnBatchResponse` | amazon.js:285-333 | follows `Advance`. A failure exits with `multiLoad` still raised and nothing written. A next call sends its request. The end writes the deduplicated list and its CSV text, then clears `multiLoad` |

`Runner.Valid()` is kept by every method except `StartFetch`. `StartFetch` is the body of step 4: it leaves a batch pending while `stepIndex` is still 4, and `Tick` restores `Valid()` by advancing `stepIndex`. `Valid()` says:

- `multiLoad` is raised exactly while a batch is pending.
- Output exists exactly when step 4 has run and `multiLoad` is clear.
- Written output has no duplicate keys, and its CSV text is `CsvText` of it.
- Every request sent has an offset below 1000 and batch size 50.

## Left out

- Books.Uniq: `seen` is modelled as a plain string map. JavaScript's `{}` object behaves differently for two keys. For `"__proto__"`, `hasOwnProperty` stays false and the assignment is swallowed by the prototype setter, so repeats of that key are all kept. For `"hasOwnProperty"`, the assignment replaces the method, so the next item's lookup throws inside the response callback and `multiLoad` is never cleared. A real key (an order URL followed by an ASIN) never takes either value.
- Browser work is left out: opening the home and devices pages, screenshots, filling the login form, the captcha prompt on stdin, and reading the anti-forgery token (amazon.js:93-170). Steps 0-3 change no modelled state; their effects arrive as the load events and `OnNavigationFailed`.
- Building the request body with `JSON.stringify`/`encodeURIComponent` and parsing the reply with `JSON.parse` are left out. Responses are already-parsed records, and a body that is not JSON (where `JSON.parse` throws) is not modelled.
- `fs.write`, `console.log` and the user-agent setting are I/O. Written files are the `txtOutput`/`csvOutput` fields; the JSON text of `booklist.txt` is represented by the list itself.
- The `setInterval` timer and the real interleaving of callbacks are left out as timing. Ticks and events are discrete method calls.
- `phantom.exit()` is a real process exit; here it only sets `exited`. The model stops there. In PhantomJS, the statements after the call in the same callback may still run (after line 289, for example), and that is not modelled.
- Events after exit are not modelled: every `Runner` method requires `!exited`.
- The endpoint is a fixed function. A server whose answer to the same request changes over time is not modelled.
- JavaScript loose typing is left out. Record fields are strings (`replace` would throw on a non-string). `hasMoreItems` is a boolean rather than a truthy value. `for (it in items)` visits the array's indices in order only.
- `Fetch.FetchOrder`, `Fetch.Run` and `Fetch.GetBookBatch` require a batch size above 0. The source always passes 50. With 0 it would request the same page again for as long as the endpoint kept answering `hasMoreItems`.
- Fetch.AlwaysMoreFrom: proved for batch size 50, the only size the source uses, not for an arbitrary batch size.
- Scheduler.Runner.OnBatchResponse: each callback is proved to follow `Advance`, and `ResumeStep` ties `Advance` to `Run`. No theorem drives a `Runner` object through a whole fetch.

## Findings

| source | as written | input that shows it | evidently intended | confidence | as-written member | corrected member |
|---|---|---|---|---|---|---|
| amazon.js:47-54 | the check rejects only when the count is not 3 and not a 4-entry `-latest` call; then `-latest` as the first argument takes the email and password from entries 2 and 3 | `phantomjs amazon.js -latest user` (`system.args` = `["amazon.js", "-latest", "user"]`) is accepted, with `pass` = `system.args[3]` = `undefined` | the usage line `amazon.js [-latest] <user> <pass>`: reject `-latest` without both credentials | high; not executed | `Args.AsWrittenAcceptsMissingPassword` | `Args.ParseArgs` |

`Args.ParseArgs` yields the `Config` that `Scheduler.Runner` is built from.
