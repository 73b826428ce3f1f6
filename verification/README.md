# foodsafetykorea bulk crawler: crawl control

A Dafny model of the control core of the `Crawler` in
`src/foodsafetykorea/scrap_bulk.py`. The crawler searches the Korean
food-safety portal for a query, walks the result pages, and writes one
product file per listed item. Around each item write, it also writes the
product's and its company's sub-tables. At the end it writes one
consolidated listing file.

The browser is replaced by scripted answers:

- a `Visit` per attempt says whether the item link and the company link
  could be clicked, and which product and company pages were then shown;
- a `PageScript` gives a page's listing (`None` where `retrieve_data`
  reports no data) and the visits of its items;
- a `seq<bool>` gives the outcome of each pagination or page-size click;
- a `seq<Control>` gives the page-link bar that `is_last_page` inspects.

The output directory tree is a `map<Key, Doc>`. A key being present is what
`os.path.exists` observes, so a store left by an earlier run is an input.
The crawl's observable actions are recorded as a trace of events:
navigations, file writes, `move_back`, back-off waits and clicks.

Modules:

- `Types`: keys, documents, events and errors, with lemmas about traces.
- `Text`: Python's `strip`, `split` and the first group of `\((.*?)\)`.
- `Records`: `crawl_prod_info`, `parse_comp_info` and the row merges.
- `Pager`: `pagination`, `is_last_page` and `expand_50_items`.
- `ItemCrawl`: the twenty-attempt envelope of one item.
- `PageSpec` and `PageCrawl`: `crawl_data_from_page`.
- `EngineSpec` and `Engine`: `execute`.

The model follows the code as it runs, including these behaviours:

- An item that runs out of attempts does not end the crawl. `execute`
  catches the raise, waits `fail_sleep` and crawls the same page again on
  the next pass.
- Running out of first-page tries is silent. The `raise` after that loop,
  like the one after the page-size loop, sits after an unconditional
  `continue`, so it can never run.
- A failed `pagination` is silent too. The same page is crawled again, and
  its listing is appended to `df_list` a second time.
- When the first page's item count never reads, `total_count` stays unset.
  Every later `pagination` then raises on the missing attribute before any
  click, so the crawl stays on page 1.
- Product files are named with the raw query. Every other file uses the
  romanized query.
- The exhaustion message reports ten attempts, but the budget is twenty.

## Model

| member | source | states |
|---|---|---|
| Text.TrimStart | src/foodsafetykorea/scrap_bulk.py:84 | the leading run removed is exactly the longest prefix of stripped characters; what remains is a suffix of the input starting with a kept character |
| Text.TrimEnd | src/foodsafetykorea/scrap_bulk.py:87 | the trailing run removed is exactly the longest suffix of stripped characters; what remains is a prefix of the input ending with a kept character |
| Text.StripTrimmed | src/foodsafetykorea/scrap_bulk.py:84 | `strip()` leaves a string unchanged when neither end is whitespace |
| Text.StripQuotesAround | src/foodsafetykorea/scrap_bulk.py:87 | `strip("'")` removes exactly the quotes put around a value that has no quote at either end |
| Text.Split | src/foodsafetykorea/scrap_bulk.py:84 | every token of `split()` is non-empty and free of whitespace |
| Text.SplitLayout | src/foodsafetykorea/scrap_bulk.py:84 | every string is laid out as whitespace-only separators around the tokens `split()` returns, so the tokens are the maximal whitespace-free runs and the whitespace between them is dropped |
| Text.SplitOnly | src/foodsafetykorea/scrap_bulk.py:84 | conversely, whenever a string is laid out as non-empty whitespace-free tokens separated by whitespace (possibly empty at either end, non-empty between tokens), `split()` returns exactly those tokens |
| Text.SplitJoin | src/foodsafetykorea/scrap_bulk.py:84 | `split()` inverts joining with single spaces: any tokens that are non-empty and free of whitespace come back unchanged |
| Text.GroupFrom | src/foodsafetykorea/scrap_bulk.py:83-84 | a group found lies between a `(` and a `)` of the input, at or after the start position, and holds no `)` and no line break |
| Text.GroupFromFirst | src/foodsafetykorea/scrap_bulk.py:83-84 | the search from a position finds no group exactly when no `(` at or after it is followed by a `)` with no line break in between; otherwise the group is the text of the leftmost such match, up to the first `)` after its `(` |
| Text.FirstGroupAt | src/foodsafetykorea/scrap_bulk.py:83-84 | the first match opens at the first `(` and closes at the next `)`, provided no line break comes in between |
| Text.FirstGroupOf | src/foodsafetykorea/scrap_bulk.py:83-84 | in `pre(inner)post` with no `(` in `pre`, and no `)` or line break in `inner`, the first group is `inner` |
| Records.ZipToMap | src/foodsafetykorea/scrap_bulk.py:115 | the dict built from `zip(keys, values)` holds exactly the keys of the shorter length; a key not repeated later maps to its own value |
| Records.MergeRows | src/foodsafetykorea/scrap_bulk.py:103-119 | the row merge succeeds exactly when no two rows share a field name; it then holds exactly the rows' fields with their values; otherwise it fails with the collision error (the company rows at 227-243 merge the same way) |
| Records.MergedField | src/foodsafetykorea/scrap_bulk.py:103-119 | a field is in the merge exactly when some row contributes it |
| Records.ParseOnclick | src/foodsafetykorea/scrap_bulk.py:83-87 | a parsed company status has no whitespace and no quote at either end; a failure is a missing match or a wrong token count |
| Records.ArgumentStatus | src/foodsafetykorea/scrap_bulk.py:84-87 | unpacking fails exactly when the argument does not split into two tokens, and then reports the token count; otherwise the status is the second token with its quotes stripped, and holds no whitespace and no quote at either end |
| Records.OnclickRoundTrip | src/foodsafetykorea/scrap_bulk.py:83-87 | a handler written as `name(number 'status')` parses back to `status` |
| Records.CompanySummary | src/foodsafetykorea/scrap_bulk.py:79-94 | the company summary reads exactly when a first `mb-table` exists, its link's handler parses and its address cell exists; it yields that status and address |
| Records.MergedFieldChecks | src/foodsafetykorea/scrap_bulk.py:160-165 | the collision check against the summary and the item-number lookup on the merge pass exactly when they pass over the rows themselves |
| Records.JoinedRecord | src/foodsafetykorea/scrap_bulk.py:159-162 | joining the summary with a collision-free merge keeps the status, the address and every row's value |
| Records.SectionDocs | src/foodsafetykorea/scrap_bulk.py:173-193 | one parquet file per sub-table, in the authorize, collection and ingredient directories in table order, all with the given name and none in the product directory |
| Records.ProductTables | src/foodsafetykorea/scrap_bulk.py:100-195 | after the summary, the page reads exactly when the rows are collision-free, there are 2 or 3 sub-tables, no row carries a summary field and some row reports the item number; it then yields the joined record and one file per sub-table named after that item number |
| Records.JoinProduct | src/foodsafetykorea/scrap_bulk.py:122-195 | over a merge that succeeded, the same conditions and the same record as `ProductTables` |
| Records.CrawlProdInfo | src/foodsafetykorea/scrap_bulk.py:72-195 | `crawl_prod_info` succeeds exactly when the page passes every check, stated over the page; it then yields the joined record and the sub-table files |
| Records.DispatchCompanyTables | src/foodsafetykorea/scrap_bulk.py:245-262 | 3 or 4 blocks dispatch, and any other count fails; licences, enforcement and products are the last three blocks; the HACCP block is present exactly with 4 blocks and is the first one |
| Records.CompanyRecord | src/foodsafetykorea/scrap_bulk.py:245-294 | over a merged company table, succeeds exactly with 3 or 4 blocks and a licence field; the record adds the referring item to the merge; four files named `roman_refer_licence` are written outside the product directory |
| Records.ParseCompInfo | src/foodsafetykorea/scrap_bulk.py:215-296 | `parse_comp_info` succeeds exactly when the page passes every check; the record keeps every row's value, tagged with the referring item; the licence is any row's licence field; the four files named after it lie outside the product directory, and the HACCP block is never written |
| Pager.PaginationSlot | src/foodsafetykorea/scrap_bulk.py:433-442 | the "next" slot 7 is chosen exactly in the two boundary bands; otherwise slot `cur + 2` before page 4 and slot 5 from page 4 on; on a real page the slot is 3 to 7 |
| Pager.IsLastPage | src/foodsafetykorea/scrap_bulk.py:433-478 | against the link `pagination` would click: on pages 1 to 3 the page is last exactly when that very slot is a label, whatever the count; on page 5 exactly when the "next" slot 7 is; on page 4 and from page 6 on, outside the boundary bands, exactly when the slot one past it is; a missing slot or a link reads as not last |
| Pager.SlotMeetsProbe | src/foodsafetykorea/scrap_bulk.py:434-474 | the link `pagination` clicks is the position `is_last_page` probes exactly on pages 1 to 3, and on page 5 of a 251-300 item listing |
| Pager.RetryFrom | src/foodsafetykorea/scrap_bulk.py:430-453 | a retry loop from attempt `k` succeeds exactly when some attempt within the budget succeeds, at the first such attempt; each failed attempt before it adds one wait; running out fails after exactly the remaining budget |
| Pager.Retry | src/foodsafetykorea/scrap_bulk.py:410-426 | the same loop from the first attempt |
| Pager.RetryObservations | src/foodsafetykorea/scrap_bulk.py:444-453 | a retry's trace shows one wait per failure, the click only on success, and no product write |
| Pager.Paginate | src/foodsafetykorea/scrap_bulk.py:429-454 | the page moves on by exactly one when the count was read and one of three clicks goes through, and otherwise stays; a move clicks exactly the slot `PaginationSlot` picks, after one five-second wait per earlier failure; staying costs three waits and no click; nothing is written |
| Pager.ExpandPageSize | src/foodsafetykorea/scrap_bulk.py:409-427 | the page size switches exactly when one of five tries goes through, at the first such try; each failed try before it waits `fail_sleep`; running out is silent |
| ItemCrawl.VisitSteps | src/foodsafetykorea/scrap_bulk.py:339-342 | a visit goes through exactly when the item is reached, its page reads, the company is reached and its page reads |
| ItemCrawl.ProdDocsOutside | src/foodsafetykorea/scrap_bulk.py:173-193 | the product page's sub-table files never touch the product directory |
| ItemCrawl.CompanyWrites | src/foodsafetykorea/scrap_bulk.py:342-348 | after the company page reads, the product directory gains exactly the product file, holding the product record with the company's licence number, written once and as the trace's last event |
| ItemCrawl.TryCompany | src/foodsafetykorea/scrap_bulk.py:341-348 | the company steps go through exactly when the company is reached and its page reads; only then is the product file written, as the last event; otherwise the product directory is unchanged; no file disappears and nothing waits |
| ItemCrawl.TryVisit | src/foodsafetykorea/scrap_bulk.py:339-348 | the `try` body goes through exactly when the visit does; then it writes the product file once, holding the visit's record, as its last event; otherwise the product directory is unchanged, though sub-table files written on the way stay |
| ItemCrawl.CloseAfterSuccess | src/foodsafetykorea/scrap_bulk.py:350-353 | closing after a success keeps the single product write and adds no wait |
| ItemCrawl.CloseAfterFailure | src/foodsafetykorea/scrap_bulk.py:355-365 | after a failure, `move_back` and then exactly one back-off follow; no product file is written, and the wait comes right after the `move_back` |
| ItemCrawl.Attempt | src/foodsafetykorea/scrap_bulk.py:329-365 | an attempt skips exactly when the product file exists; it completes exactly when the file is missing and the visit goes through, writing the visit's record once and ending with that write and then `move_back`; otherwise it leaves the file absent and backs off once by the schedule |
| ItemCrawl.ScheduleValues | src/foodsafetykorea/scrap_bulk.py:359-363 | the back-off is `fail_sleep` (5 s) after each of attempts 0 to 4 and `long_sleep` (20 s) after each later one |
| ItemCrawl.FirstSuccessIsFirst | src/foodsafetykorea/scrap_bulk.py:328-353 | the first good visit comes after only bad ones, and lies within the budget exactly when some visit goes through |
| ItemCrawl.AttemptsFrom | src/foodsafetykorea/scrap_bulk.py:327-365 | the loop fails exactly the attempts before the first good visit, and writes the product file exactly when such a visit lies within twenty attempts; the file then holds that visit's record; an existing file ends the loop untouched; the waits follow the schedule |
| ItemCrawl.Exhausted | src/foodsafetykorea/scrap_bulk.py:327-328 | twenty failures end the loop with the item incomplete and nothing more done |
| ItemCrawl.Untouched | src/foodsafetykorea/scrap_bulk.py:333-337 | an existing product file ends the loop at once, with no navigation, write or wait |
| ItemCrawl.SomeVisitSucceeds | src/foodsafetykorea/scrap_bulk.py:328-353 | an item is reachable exactly when one of its twenty visits goes through |
| ItemCrawl.ReachesFromFirst | src/foodsafetykorea/scrap_bulk.py:328-353 | some visit from attempt `j` on goes through exactly when the first good visit from `j` lies within the budget |
| ItemCrawl.RetryItem | src/foodsafetykorea/scrap_bulk.py:327-365 | the `for` loop of one item fails exactly the attempts before the first good visit and completes exactly when that visit lies within twenty attempts; the product file then holds that visit's record; an existing file ends the loop untouched; writes and waits as for `AttemptsFrom` |
| ItemCrawl.CrawlItem | src/foodsafetykorea/scrap_bulk.py:323-372 | an item completes exactly when its file existed or one of its visits goes through; otherwise it raises the exhaustion error naming the item's page; an existing file costs one `move_back` only; the product file is written at most once, and the trace always ends with `move_back` |
| ItemCrawl.CloseRun | src/foodsafetykorea/scrap_bulk.py:367-372 | the unconditional `move_back` and the raise turn the loop's outcome into the item's |
| ItemCrawl.CloseItem | src/foodsafetykorea/scrap_bulk.py:367-368 | the final `move_back` adds no write and no wait, and ends the trace |
| PageSpec.StillClosed | src/foodsafetykorea/scrap_bulk.py:333-337 | on a listing whose every item has its file, each item leaves the store alone and costs one `move_back` |
| PageSpec.StopAt | src/foodsafetykorea/scrap_bulk.py:370-372 | an item that raises stops the page there: the earlier items are complete, this one is not, none of its visits goes through, and the listing was not completable |
| PageSpec.DoneOnlyWithoutError | src/foodsafetykorea/scrap_bulk.py:323-376 | a run over the items ends without error exactly when every listed item has its product file |
| PageCrawl.CrawlItems | src/foodsafetykorea/scrap_bulk.py:323-375 | the items run in listing order; all complete when each has its file or a good visit; otherwise the run stops at the first item with neither; product files are written at most once and never changed |
| PageCrawl.CrawlPage | src/foodsafetykorea/scrap_bulk.py:315-378 | `crawl_data_from_page` succeeds exactly when the listing reads and every listed item ends with its product file; an unreadable listing changes nothing; a listing whose every item has its file writes nothing |
| EngineSpec.TotalCount | src/foodsafetykorea/scrap_bulk.py:494 | the item count reads exactly when the listing is non-empty and every running number reads as an integer; it is then the largest of them |
| EngineSpec.ConcatRows | src/foodsafetykorea/scrap_bulk.py:458 | a row is in the concatenation exactly when it is in one of the kept listings |
| EngineSpec.AfterCrawl | src/foodsafetykorea/scrap_bulk.py:514-516 | a page crawl keeps the run sound; a page that went through adds its listing, every row of which has its product file |
| EngineSpec.AfterPaginate | src/foodsafetykorea/scrap_bulk.py:507-509 | `pagination` keeps the run sound and leaves page 1 only once the count was read |
| EngineSpec.AfterConsolidate | src/foodsafetykorea/scrap_bulk.py:456-460 | the consolidated write keeps the product files, and every row it holds has its product file |
| Engine.CrawlOnce | src/foodsafetykorea/scrap_bulk.py:513-516 | one crawl of the current page keeps its listing exactly when it goes through, which it does whenever the listing reads and every item has its file or a good visit; no file disappears |
| Engine.FirstTry | src/foodsafetykorea/scrap_bulk.py:489-501 | one try of the first-page loop: it ends the loop exactly when the count is read, which happens only from the listing of a crawl that went through, which is kept; a try whose listing completes and whose count reads always ends the loop |
| Engine.TriesFrom | src/foodsafetykorea/scrap_bulk.py:489-501 | the first-page loop from try `lo`: if that try settles (its listing completes and its count reads), it ends the loop with that count and listing; if the count stays unread, no try from `lo` on settles; every listing kept is the listing of one of those tries |
| Engine.FirstPage | src/foodsafetykorea/scrap_bulk.py:489-501 | an item count is only read from the listing of a try that went through, which is kept; a first try that completes with a readable count ends the loop with that count and listing; if any of the five tries would complete with a readable count, the count is read; every listing kept comes from one of the tries; running out leaves the count unread, silently |
| Engine.Turn | src/foodsafetykorea/scrap_bulk.py:507-509 | the page moves on by one exactly when the count was read and one of three clicks goes through; the page is then not yet crawled; the store is untouched |
| Engine.Pass | src/foodsafetykorea/scrap_bulk.py:506-527 | one `while` pass moves on a page exactly after a crawled page whose pagination succeeds; it keeps the listing of a page that goes through, even one crawled before, and a page whose listing reads and whose every item has its file or a good visit always goes through; the crawl ends exactly when a page went through and `is_last_page` holds |
| Engine.Passes | src/foodsafetykorea/scrap_bulk.py:505-527 | the loop keeps the run sound, never moves back a page, only appends listings, and stops once the crawl has ended; a loop that ends the crawl does so in its last pass, on a crawled page where `is_last_page` holds for that pass's page-link bar |
| Engine.Execute | src/foodsafetykorea/scrap_bulk.py:480-530 | `execute` keeps every product file a previous run left and writes each missing one at most once; it never leaves page 1 without the count; once the loop ends, it writes the concatenation of every listing read in full, each row of which has its product file, or fails when there is none; a run that finishes stops on a crawled page where `is_last_page` holds, read either after the first page or after some pass |

## Left out

- The browser session, XPath lookups and HTML parsing are not modelled. Their outcomes are scripted inputs (`Visit`, `PageScript`, click outcomes, the page-link bar).
- `init_page` and `input_query` (scrap_bulk.py:380-407) only navigate and type. The query and its romanized form are parameters, and `Romanizer` is not part of this model.
- `retrieve_data` (scrap_bulk.py:39-57) is not modelled. A page's listing is given as `Option<seq<ItemRef>>`, with `None` for a page reporting no data, where the item loop raises on `None`.
- The running number of a listing row is given already read as an integer or not. The conversion inside `astype(int)` is not modelled.
- `parse_table_to_df` (scrap_bulk.py:197-213) and building the sub-tables are not modelled. Tables come already parsed, so a pandas error from a mismatched column count cannot occur. A table always has a header row, so the `rows[0]` failure of a row-less ingredient table (scrap_bulk.py:181), which raises after the authorize and collection files were already written (173-180), is not modelled either. Those files lie outside the product directory.
- The extra columns the sub-tables receive (item number, licence number, referring item, `last_updated_at`) are left out, as are all timestamps.
- Only the failure back-off waits and clicks appear in the trace. Settle sleeps after navigation (`short_sleep`, `long_sleep`, the one-second pause) are left out because no decision depends on them.
- Logging (`_print`) is left out.
- The exception text of the exhaustion raise is reduced to the item's page and the reported count of ten.
- Engine.Passes: the `while` loop of `execute` runs for as many passes as the script supplies. A script that runs out before the last page ends the model's run unfinished, where the program would keep looping.
- ItemCrawl.CrawlItem: does not restate which visit's record the product file holds. That is stated on `ItemCrawl.AttemptsFrom`, whose loop it runs.
- Engine.Execute: states the consolidated file and the product files, not the exact number of times each page's listing is kept. `Engine.Pass` states that per pass.
- Every file write succeeds whole. A `json.dump` that raised after `open(..., 'w')` (scrap_bulk.py:347-348) would leave a partial product file that the existence check (scrap_bulk.py:333) then treats as done; that partial file is not modelled.
- A crash mid-run is represented only by the store a run starts from. Concurrency is not part of this crawler.
