# THINK_SPAIN harvesters, modelled in Dafny

The system collects the identifiers and canonical URLs of properties listed on
thinkspain.com. There are three harvesters:

- `production_harvester.py` drives a browser. It keeps clicking "Show More" on
  the listing page, gathers the property links every click reveals, and
  canonicalises each link to `https://www.thinkspain.com/property-for-sale/<digits>`.
  After every click it writes a progress file and an output file, so a later run
  can resume. The fast-forward re-clicks the page up to the checkpointed click
  count. The run stops at a click target, a signal, a runtime limit, five
  harvests in a row with nothing new, or a failed click: no button, or three
  raising attempts.
- `scraper.py` requests numbered result pages over HTTP. It retries failing
  requests, waiting longer after an HTTP 500. It extracts `ListItem` records
  from the page's structured data and keeps those whose id is new. It saves
  progress every thousand records and once more, forced, at the end.
- `selenium_harvester.py` is the test harness. It makes up to 200 clicks, takes
  absolute links only, and writes the sorted links and their ids as CSV rows.
  It also reports the number of duplicate ids.

The model describes each harvester object as a Dafny `class` whose methods
update its fields. The browser, the HTTP server and the file system become
objects driven by scripts fixed in advance: the outcome of each coming click
attempt, each coming read of the anchors, each response and each clock reading.
An arbitrary script therefore stands for an arbitrary environment. The pure
parts are functions with lemmas about them:

- canonicalisation of links;
- Python's `split`, `str(int)` and `sorted`;
- the checkpoint records;
- the fetch-retry recursion;
- the new-record filter.

Modules, in dependency order:

- `Options`, `Storage`: an option type, and a file that may be absent, unreadable or present.
- `Scripts`: environment scripts consumed from the front.
- `Text`: substring search, `split(sep)[-1]`, `split(c)[0]`, ASCII `isdigit`, `str(int)`.
- `StringOrder`: Python's string `<` and `sorted(set)`.
- `Links`: the canonicalisation rule shared by the two browser harvesters.
- `Browser`: the scripted page.
- `ProductionCheckpoint`, `Production`: `production_harvester.py`.
- `ScraperPages`, `Scraper`: `scraper.py`.
- `Selenium`: `selenium_harvester.py`.

### Where the model follows the code rather than its description

- **Order of the checks in the main loop of `run`:** the loop guard
  `clicks_performed < MAX_CLICKS` comes first. Then come the shutdown flag, the
  runtime limit and the run of empty harvests, and only then the click.
- **A failed fast-forward click:** the code does not abort the run. It leaves
  the fast-forward loop and goes on harvesting from where the page is.
- **Fast-forward and the click count:** every fast-forward click goes through
  `click_show_more`, which increments `clicks_performed`. After resuming from
  `n` clicks and skipping `k`, the counter is therefore `n + k`, not `n`.
  `Production.ProductionHarvester.Run` states exactly this:
  `clicksPerformed == resumedFrom + skipped + clicked`.
- **The `MAX_CONSECUTIVE_FAILURES` stop in the scraper:** the first page that
  fails after a success always ends the loop as "end of results". So the
  three-failures stop cannot trigger in a run whose failure counter starts at 0,
  and every run starts there because `load_progress` does not restore the
  counter. `Scraper.PropertyHarvester.Run` states this: from a counter of 0 a run that
  is not interrupted ends with `EndOfResults`.
- **Start-up in `selenium_harvester.py`:** `setup_driver` and `load_page`
  return nothing there, and `run_test` does not test them. An exception
  raised by either skips straight to `save_results`. The model's `RunTest`
  starts at the first harvest, because generic exceptions are not modelled
  (see "## Left out").

## Model

| member | source | states |
|---|---|---|
| Text.Find | production_harvester.py:335 | The index of the first occurrence of the separator: it occurs there and nowhere before; None means it occurs nowhere |
| Text.LastSplit | production_harvester.py:336 | The last piece of `split(sep)`: a suffix of the input containing no separator; the whole input when the separator is absent, otherwise directly preceded by an occurrence; this fixes the piece for separators that cannot overlap themselves |
| Text.FirstSplit | production_harvester.py:336 | The first piece of `split(c)`: the longest prefix without `c`, followed by `c` when shorter than the input |
| Text.NatToDecimal | scraper.py:113 | `str(n)` for a natural number: a digit string whose decimal value is `n` and which has no leading zero |
| Text.DecimalRoundTrip | scraper.py:113 | `str(int(s)) == s` for a digit string without leading zeros: the decimal value determines the digits |
| Text.IsDigitString | production_harvester.py:337 | A digit string is non-empty and contains no `/`, `?` or `#` |
| Text.IntToDecimal | scraper.py:113 | `str(n)` for any integer: a leading `-` exactly for negative numbers, followed by the digits of the absolute value |
| StringOrder.Sorted | production_harvester.py:150 | `sorted(list(set))`: strictly ascending in Python's string order, with exactly the elements of the set and its size |
| Browser.Page.TryClick | production_harvester.py:289-305 | One click attempt: it returns the next scripted outcome and consumes it, and the page advances by one exactly when the button was clicked |
| Browser.Page.ReadHrefs | production_harvester.py:329-334 | One read of the anchors: it returns the next scripted href list, None for a read that raises, and consumes it; clicks and page position are unchanged |
| Links.IdSegment | production_harvester.py:336 | The id candidate of an href: a prefix of the last `/property-for-sale/` piece containing no `?` or `#`, cut exactly at the first of them |
| Links.Canonicalize | production_harvester.py:333-339 | An href yields a link exactly when it contains the marker and its id candidate is a digit string; the link is the canonical base followed by that id, so it is canonical |
| Links.CanonicalizeAbsolute | selenium_harvester.py:129-138 | The test harness's rule: a link only for hrefs starting with `http`, and for those the production rule's link |
| Links.IdSegmentOfCanonical | selenium_harvester.py:223 | For a canonical URL, the last `/property-for-sale/` piece is exactly its digits, which is also its id segment |
| Links.CanonicalIdInjective | selenium_harvester.py:222-239 | Two canonical URLs with the same extracted property id are the same URL, which is why the duplicate count is zero |
| Links.CanonicalFixedPoint | production_harvester.py:336-339 | Canonicalising a canonical URL gives it back, under both rules |
| Links.CanonicalIsAbsolute | selenium_harvester.py:133 | Every canonical URL starts with `http` |
| Links.PageLinks | production_harvester.py:329-339 | The links one harvest adds: every one is canonical |
| Links.PageLinksSound | production_harvester.py:333-339 | Every harvested link comes from some href on the page |
| Links.PageLinksComplete | production_harvester.py:333-339 | Every href that canonicalises contributes its link |
| Links.PageLinksFromHrefs | production_harvester.py:333-339 | A link is harvested if and only if some href on the page yields it |
| Links.AbsoluteLinksAmongAll | selenium_harvester.py:129-138 | The test harness harvests a subset of what the production rule harvests from the same page |
| Links.GrowthCountsNew | production_harvester.py:341 | How much the link set grows equals the number of found links not already known |
| ProductionCheckpoint.CheckpointOf | production_harvester.py:145-158 | The progress file holds the click count, the run of empty harvests and the links, sorted and without repetition |
| ProductionCheckpoint.Restore | production_harvester.py:131-143 | A missing or unreadable progress file leaves the state as it was |
| ProductionCheckpoint.RestoreSaved | production_harvester.py:131-158 | Loading what was saved restores the same clicks, links and empty-harvest run |
| ProductionCheckpoint.RestoreDefaults | production_harvester.py:137-139 | A progress file without the keys restores 0 clicks, no links and 0 |
| ProductionCheckpoint.OutputOf | production_harvester.py:160-173 | The output file holds every link once, in sorted order, with its count and the click count |
| Production.OverRuntime | production_harvester.py:102-108 | The runtime limit is exceeded exactly when the elapsed microseconds exceed the hour limit times 3.6e9 |
| Production.ClickRetry | production_harvester.py:281-324 | `click_show_more` makes at least one and at most the allowed number of attempts |
| Production.ClickRetryAttempts | production_harvester.py:281-324 | Every attempt before the last one raised; the call succeeds exactly when the last attempt clicked; it gives up after a raise only once all attempts are spent |
| Production.FirstClickSucceeds | production_harvester.py:286-307 | A clickable button is clicked on the first attempt |
| Production.PersistentErrorGivesUp | production_harvester.py:316-324 | A driver that raises on every attempt exhausts RETRY_ATTEMPTS attempts and the call fails |
| Production.FastForwardBy | production_harvester.py:386-390 | The fast-forward of `run` on an attempt script: it skips at most the resumed number of clicks, and never a negative number |
| Production.ConsumedStep | production_harvester.py:386-388 | The attempts of `k + 1` calls of `click_show_more` are those of the first call followed by those of `k` more calls on what it leaves |
| Production.CallsSucceedStep | production_harvester.py:386-388 | A successful call followed by `n` successful calls is `n + 1` successful calls |
| Production.FastForwardSucceeds | production_harvester.py:386-390 | Every click the fast-forward skips is a call of `click_show_more` that went through |
| Production.FastForwardCompletes | production_harvester.py:386-390 | A fast-forward that reaches the resumed count consumes exactly the attempts of that many calls |
| Production.StopsAfterStep | production_harvester.py:386-390 | Stopping after `n` more calls once the first call succeeded is stopping after `n + 1` calls, with the first call's attempts added |
| Production.FastForwardStopsAtFailure | production_harvester.py:387-390 | A fast-forward that skips fewer clicks than the checkpoint holds ends at the call of `click_show_more` that failed, right after the ones it skipped |
| Production.MainLoopStops | production_harvester.py:412-438 | The main loop stops for one of five reasons, the first check that fires in the code's order: the target exactly when the count reaches MAX_CLICKS, which a loop that clicked never overshoots; otherwise the shutdown flag, the runtime limit on the last reading, five empty harvests in a row, and the last click |
| Production.MainLoopContinues | production_harvester.py:412-438 | A round in which every check passes and the click goes through is followed by the rest of the loop from the round's end state |
| Production.HarvestGrows | production_harvester.py:326-355 | One harvest only adds links, and only canonical ones |
| Production.HarvestTwice | production_harvester.py:326-348 | Harvesting a page whose hrefs were already harvested leaves the links unchanged, finds 0 new links, and grows the run of empty harvests by one |
| Production.HarvestOfView | production_harvester.py:326-355 | A state changed field by field as `harvest_property_links` changes it is the harvest of the old state |
| Production.MainLoopLinks | production_harvester.py:412-438 | The main loop's links only grow, and only by canonical links |
| Production.OnTrackDone | production_harvester.py:386 | A fast-forward with no calls left has reached its end: the clicks skipped and the attempts consumed |
| Production.FastForwardStep | production_harvester.py:386-390 | One call of the fast-forward: the script moves on by exactly the call's attempts; a failed click ends the fast-forward there; a successful one leaves one fewer to make |
| Production.SessionStartOf | production_harvester.py:381-405 | The state after the fast-forward and one harvest is where the main loop starts |
| Production.Host.ReadClock | production_harvester.py:104 | Each clock read returns the next scripted elapsed time and consumes it |
| Production.Host.PollSignal | production_harvester.py:97-100 | Each check for a signal returns the next scripted arrival and consumes it |
| Production.ProductionHarvester.constructor | production_harvester.py:72-95 | A new harvester has no clicks, no links, no empty-harvest run and no shutdown request |
| Production.ProductionHarvester.SignalHandler | production_harvester.py:97-100 | A signal sets the shutdown flag |
| Production.ProductionHarvester.CheckRuntimeLimit | production_harvester.py:102-108 | The check answers OverRuntime for the current clock reading |
| Production.ProductionHarvester.LoadProgress | production_harvester.py:131-143 | The state becomes what the progress file restores |
| Production.ProductionHarvester.SaveProgress | production_harvester.py:145-158 | A writable disk then holds the checkpoint of the current state; a failed write leaves the file as it was |
| Production.ProductionHarvester.SaveOutput | production_harvester.py:160-173 | A writable disk then holds the output record of the current state; a failed write leaves the file as it was |
| Production.ProductionHarvester.ClickShowMore | production_harvester.py:281-324 | The outcome is ClickRetry's on the page's attempt script, exactly its attempts are consumed, and the click count and page position rise by one exactly on success |
| Production.ProductionHarvester.AddLinks | production_harvester.py:333-339 | The link set grows by exactly the page's canonical links |
| Production.ProductionHarvester.HarvestPropertyLinks | production_harvester.py:326-355 | A raising read changes nothing and counts 0. Otherwise the page's links are added, the count is the number of new links, and the empty-harvest run grows on 0 and resets otherwise |
| Production.ProductionHarvester.FastForward | production_harvester.py:381-400 | The clicks skipped and the attempts consumed are exactly FastForwardBy's on the attempt script, so every skipped click went through and a short fast-forward ended at a failed call; each skip is counted and advances the page, and the anchors are not read |
| Production.ProductionHarvester.SkipOnce | production_harvester.py:387-390 | One fast-forward call consumes exactly its attempts. A failed click ends the fast-forward at the expected end, a successful one keeps it on track with one call fewer, counted and advancing the page |
| Production.ProductionHarvester.ClickAndRecord | production_harvester.py:429-438 | The outcome is ClickRetry's on the attempt script, and the new loop state is that click followed, when it went through, by one harvest. A failed click leaves the links, the empty-harvest run, the anchors and both files untouched; a successful one adds exactly the links read and saves each file once, with the state saved when the disk is writable |
| Production.ProductionHarvester.Round | production_harvester.py:412-438 | One round of the main loop: either every check passes, the click goes through and the state is NextRound's with one more click and one save of each file; or the round stops with exactly MainLoop's reason and end state |
| Production.ProductionHarvester.ClickLoop | production_harvester.py:412-438 | The stop reason and the end state are exactly MainLoop's on the state and scripts at entry. So the reason is the first check that fires, in the code's order, the target exactly when the count reaches MAX_CLICKS, which is never overshot. Links only grow and only by canonical links, and both files are saved once per click |
| Production.ProductionHarvester.OpenSession | production_harvester.py:381-407 | The fast-forward by the resumed count and one harvest: the state becomes SessionStart's, the click count rises by the clicks skipped, and each file is saved once |
| Production.ProductionHarvester.Session | production_harvester.py:381-457 | Fast-forward, harvest and save, the click loop and the final harvest: the end state is the final harvest after MainLoop started at SessionStart, the click count rises by the clicks skipped and the loop's clicks, the stop reason is the loop's, links only grow and only by canonical links, and the files are saved once plus once per click |
| Production.ProductionHarvester.RunLoaded | production_harvester.py:366-484 | A false `setup_driver` or `load_page` stops at once with the state unchanged and one save of each file in the finally block. Otherwise the state is the session's end state, followed by the final saves; a writable disk ends holding the final state |
| Production.ProductionHarvester.Run | production_harvester.py:357-484 | After loading the progress file: the early exits for the driver and the page; otherwise the end state of MainLoop from SessionStart of the loaded state, then one harvest. The click count is resumed plus skipped plus clicked, clicks stay within MAX_CLICKS, the stop reason is the first check that fired, links only grow from the loaded ones and only by canonical links, both files hold the final state when writable, and the number of saves |
| ScraperPages.PageUrl | scraper.py:109-113 | Page 1 is the base URL itself, and every page URL starts with the base URL |
| ScraperPages.PageUrlQuery | scraper.py:109-113 | Any other page is the base URL, `?numpag=`, and the page number in decimal |
| ScraperPages.PageUrlInjective | scraper.py:109-113 | Different page numbers give different URLs |
| ScraperPages.PropertyId | scraper.py:137 | A non-empty `productID` is the id; otherwise the id is a tail of `@id` containing no `/` |
| ScraperPages.PropertyUrl | scraper.py:138 | The url is non-empty exactly when `url` or `@id` is; a non-empty `url` wins, otherwise it is `@id` |
| ScraperPages.ItemProperty | scraper.py:134-146 | Only a `ListItem` with a product yields a record, and never one with an empty id or url; a product with non-empty `productID` and `url` yields exactly those two; an id taken from `@id` contains no `/` |
| ScraperPages.Extract | scraper.py:115-153 | At most one record per item, none with an empty id or url |
| ScraperPages.ExtractAppend | scraper.py:134-146 | Extraction works item by item |
| ScraperPages.ExtractMembers | scraper.py:134-146 | A record is extracted exactly when some item yields it |
| ScraperPages.WaitSeconds | scraper.py:166-187 | Every wait between two requests lasts between DELAY_SECONDS * 2 and DELAY_ON_500 seconds |
| ScraperPages.WaitAfter | scraper.py:163-187 | A status 500 is followed by a wait of DELAY_ON_500 seconds, any other failure, including a request error, by DELAY_SECONDS * 2 |
| ScraperPages.FetchPage | scraper.py:155-189 | A fetch makes at least one and at most MAX_RETRIES + 1 requests, waiting once before every repeat |
| ScraperPages.FetchPageFailures | scraper.py:163-189 | Every request before the last one failed, and each is followed by the wait its failure calls for |
| ScraperPages.FetchPageOutcome | scraper.py:155-189 | The fetch returns text exactly when its last response is a 200, and that response's text; a failure means the retries are spent |
| ScraperPages.OverloadedServer | scraper.py:163-170 | A server answering only 500 costs MAX_RETRIES + 1 requests and MAX_RETRIES long waits, and the fetch fails |
| ScraperPages.IdsOf | scraper.py:210 | The set of ids is exactly the ids of the records |
| ScraperPages.NewProperties | scraper.py:211 | Keeps only records whose id is not already known |
| ScraperPages.NewPropertiesAppend | scraper.py:211 | The filter works record by record |
| ScraperPages.NewPropertiesMembers | scraper.py:211 | A record is kept exactly when it is on the page and its id is new |
| ScraperPages.NewPropertiesAllFresh | scraper.py:211 | A page of only new ids is kept whole |
| ScraperPages.NoneNew | scraper.py:211 | A page of only known ids adds nothing |
| ScraperPages.NewPropertiesAgain | scraper.py:210-214 | Processing the same page twice adds nothing the second time |
| ScraperPages.ProcessOutcome | scraper.py:191-218 | A page fails its fetch exactly when the fetch returns nothing. A failed fetch or an empty page is no success and adds nothing, and every record added has a new id |
| ScraperPages.ProcessOutcomeSuccess | scraper.py:203-218 | A page succeeds exactly when the fetch worked and extraction found records, and then it adds exactly the new ones |
| ScraperPages.PagesFrom | scraper.py:230-255 | The pages of the loop of `run`, one step each from the responses left and the records so far: a run of `n` pages has exactly `n` outcomes |
| ScraperPages.PagesFromAccounts | scraper.py:230-255 | After any number of pages the records are the starting records followed by what each page added, and the responses left are the script with every page's requests consumed |
| ScraperPages.PagesFromRecords | scraper.py:230-255 | After any number of pages the records are the starting records followed by what each page added, in order |
| ScraperPages.PagesFromResponses | scraper.py:230-255 | After any number of pages the responses left are the script with every page's requests consumed |
| ScraperPages.PagesFromStep | scraper.py:230-255 | A run of `n` pages is the run of `n - 1` pages with the last page's outcome recorded |
| ScraperPages.PagesFromProcessed | scraper.py:232 | In the loop of `run`, the next page is process_page on the responses left and the records so far |
| ScraperPages.StepAdded | scraper.py:213 | One more page keeps the records accounted for: its new records are appended |
| ScraperPages.StepRequested | scraper.py:195 | One more page keeps the responses accounted for: its requests are consumed |
| ScraperPages.PagesFromExtends | scraper.py:230-255 | The page loop only appends records: the starting records are a prefix of the records after any number of pages |
| ScraperPages.PagesFromFirst | scraper.py:230-255 | A run of `n` pages is the first page followed by a run of `n - 1` pages from what the first page leaves |
| ScraperPages.GoesOnFresh | scraper.py:234-249 | A loop whose failure counter starts at 0 and has not stopped has had only successful pages, and the counter is 0 |
| ScraperPages.FreshRunEnds | scraper.py:234-249 | A loop whose failure counter starts at 0 ends at its first failing page: every page before it succeeded, and the counter is 1 at the end |
| ScraperPages.FailedAfterMembers | scraper.py:197-200 | A page is in the failed list after a run exactly when it was there before or is the number of a page of the run whose fetch failed |
| ScraperPages.Restore | scraper.py:58-78 | A missing or unreadable progress file leaves the position as it was |
| ScraperPages.RestoreSaved | scraper.py:58-100 | Loading what was saved restores the same position |
| ScraperPages.RestoreDefaults | scraper.py:64-66 | A progress file without the keys restores page 1, total 0 and no failed pages |
| Scraper.Site.Get | scraper.py:160 | Each request returns the next scripted response, or raises once the script is used up, and is recorded |
| Scraper.Site.Sleep | scraper.py:166-179 | Each wait is recorded |
| Scraper.PropertyHarvester.constructor | scraper.py:45-56 | A new harvester is on page 1 with no records, no failures and nothing saved |
| Scraper.PropertyHarvester.LoadProgress | scraper.py:58-78 | The position becomes what the progress file restores, and the records become the output file's when it is readable |
| Scraper.PropertyHarvester.SaveProgress | scraper.py:80-107 | It writes both files exactly when forced or at least SAVE_INTERVAL records arrived since the last save; a writable disk never lags that far behind afterwards |
| Scraper.PropertyHarvester.FetchPage | scraper.py:155-189 | The method returns the fetch function's text, consumes exactly its requests, requests the page URL that many times and sleeps exactly its waits |
| Scraper.PropertyHarvester.ProcessPage | scraper.py:191-218 | The records, the total, the failed pages and the consumed responses are exactly what ProcessOutcome says |
| Scraper.OneMorePage | scraper.py:232-249 | Recording one more page outcome: the failed list gains that page exactly when its fetch failed, the failure counter resets on success and grows on failure, and the loop goes on exactly when it went on before and this page does not stop it |
| Scraper.PropertyHarvester.ProcessRound | scraper.py:232-237 | One page and its counter update: the records and remaining responses become those of the run with process_page's outcome recorded, the success is that outcome's, and the failed list and the counter follow the run's outcomes |
| Scraper.PropertyHarvester.Advance | scraper.py:252-255 | A periodic save and the move to the next page; a disk that is not writable keeps its files |
| Scraper.PropertyHarvester.Pass | scraper.py:232-255 | One iteration of the loop: after the page, a failure stops the loop with "too many failures" when the counter reaches MAX_CONSECUTIVE_FAILURES, otherwise with "end of results" when the counter is 1, and otherwise the loop saves and moves to the next page |
| Scraper.PropertyHarvester.ProcessPages | scraper.py:230-258 | The loop returns one outcome per page processed. The records and the responses left are those of PagesFrom over exactly those outcomes, the failed list and the failure counter follow from them, every page but the last goes on, and a loop that ends by itself ends at a failing page that stops it, on that page, with "too many failures" exactly when the counter reached MAX_CONSECUTIVE_FAILURES |
| Scraper.PropertyHarvester.Run | scraper.py:220-266 | After loading the progress file: the records, responses, failed pages, counter and page number are what the outcomes of the processed pages make of the loaded state. From a counter of 0, which every run starts with, an interrupted run had only successful pages, and any other run ended with "end of results" at its first failing page. A writable disk ends holding the final records and position |
| Selenium.ZeroRun | selenium_harvester.py:166-186 | The number of harvests at the end, in a row, that found nothing new |
| Selenium.ZeroRunSnoc | selenium_harvester.py:177-186 | A harvest with nothing new grows the run by one; any other resets it |
| Selenium.RanOnSnoc | selenium_harvester.py:168-186 | Extending the loop by one harvest, before the run reached five, keeps the loop's history one that never reached five |
| Selenium.RanOnAt | selenium_harvester.py:177-184 | In a loop that never reached five empty harvests in a row, every harvest before the last one was preceded by fewer than five |
| Selenium.HarvestTrailAt | selenium_harvester.py:174 | Each call on a trail of harvests takes the links from its state to the next by what it found, and counts the found links that were new |
| Selenium.FindsOfAt | selenium_harvester.py:121-146 | The `j`-th harvest finds the absolute canonical links of the `j`-th read of the anchors |
| Selenium.ClickedFirstAt | selenium_harvester.py:169-171 | Every click before the `n`-th went through |
| Selenium.HarvestTrailSnoc | selenium_harvester.py:174 | A trail followed by one more harvest from its last state is a trail |
| Selenium.HarvestTrailFirst | selenium_harvester.py:161 | A harvest followed by a trail starting where it ended is a trail |
| Selenium.FindsOfSnoc | selenium_harvester.py:174 | One more harvest finds the links of the next read of the anchors |
| Selenium.FindsOfFirst | selenium_harvester.py:161 | A first harvest before the rest finds the links of the first read |
| Selenium.HarvestTrailAround | selenium_harvester.py:161-197 | The initial harvest, the loop's harvests and the final harvest together form one trail over consecutive reads of the anchors |
| Selenium.CollectedHistory | selenium_harvester.py:159-197 | The first harvest, a loop history that never reached five empty harvests before its end, and the final harvest form one trail over consecutive reads of the anchors, with the loop's counts in the middle and the links only growing from first to last |
| Selenium.HarvestStepTwice | selenium_harvester.py:121-143 | A second harvest of the same links leaves the set unchanged and returns 0 |
| Selenium.HarvestTrailCounts | selenium_harvester.py:174-186 | Along a trail the links only grow, and the counts add up to how much they grew |
| Selenium.HarvestTrailGrows | selenium_harvester.py:161-197 | Along a trail the links only grow |
| Selenium.Rows | selenium_harvester.py:221-227 | One row per URL, in order, each carrying its URL |
| Selenium.RowIds | selenium_harvester.py:223 | Each row's id is a tail of its URL without the marker: the whole URL when the marker is absent, and the digits of a canonical URL |
| Selenium.BuildRows | selenium_harvester.py:221-227 | The loop builds exactly those rows |
| Selenium.IdSet | selenium_harvester.py:239 | The set of ids contains every row's id and is no larger than the rows |
| Selenium.IdSetHasOnlyRowIds | selenium_harvester.py:239 | Every id in the set is the id of some row |
| Selenium.IdSetOfDistinct | selenium_harvester.py:239 | Rows with pairwise different ids have as many ids as rows |
| Selenium.RowIdsDistinct | selenium_harvester.py:222-239 | Different canonical URLs give rows with different ids |
| Selenium.RowsOfCanonical | selenium_harvester.py:218-239 | For canonical links, the rows of the sorted links have as many distinct ids as there are links |
| Selenium.Sink.constructor | selenium_harvester.py:23 | The CSV file starts as given |
| Selenium.PropertyHarvester.constructor | selenium_harvester.py:39-43 | A new harvester has no links and no clicks |
| Selenium.PropertyHarvester.ClickShowMore | selenium_harvester.py:96-119 | A single attempt that succeeds exactly when the button is clicked; the click count and page position rise by one exactly then |
| Selenium.PropertyHarvester.AddLinks | selenium_harvester.py:129-138 | The link set grows by exactly the page's absolute canonical links |
| Selenium.PropertyHarvester.HarvestPropertyLinks | selenium_harvester.py:121-146 | One harvest step: the links become the old links plus the absolute canonical links of the read, or stay for a raising read, and the count is the number of new links; only canonical links are ever kept |
| Selenium.PropertyHarvester.SaveResults | selenium_harvester.py:207-240 | No file when there are no links. Otherwise the CSV holds the rows of the sorted links, and the reported duplicate count is 0 because all links are canonical |
| Selenium.PropertyHarvester.ClickAndHarvest | selenium_harvester.py:169-174 | One attempt of the for loop: the click succeeds exactly when the scripted attempt clicks, and only then is the page harvested, as one harvest step |
| Selenium.PropertyHarvester.ClickRound | selenium_harvester.py:168-186 | One iteration extends the click, anchor and harvest histories by one entry when the click goes through, and keeps the run of empty harvests both counted and below five except at the stop |
| Selenium.PropertyHarvester.ClickLoop | selenium_harvester.py:166-186 | At most max_clicks attempts. Every click before the last attempt went through and each was followed by one harvest step over consecutive reads, with counts that are the new links; the loop stops on a failed click, after max_clicks, or exactly when five harvests in a row found nothing new, and never earlier for that reason |
| Selenium.PropertyHarvester.Collect | selenium_harvester.py:159-197 | The initial harvest, the loop and the final harvest: one trail of harvests over consecutive reads, the loop's counts in the middle, and the loop's guarantees |
| Selenium.PropertyHarvester.RunTest | selenium_harvester.py:148-205 | Collect's guarantees on the harvests, links only growing and only by canonical links, and the CSV holding the final sorted rows, or left as it was when no link was found |

## Left out

- Browser start-up, Xvfb, popups, screenshots, memory logging and `cleanup`. `setup_driver` and `load_page` of the production harvester are reduced to the booleans they return.
- The page's DOM. The anchors are a script of href lists, where a read that raises is None, and a read either fully succeeds or raises; an exception raised by `get_attribute` half-way through a read is not modelled. A `None` href is not modelled.
- HTTP and HTML parsing. The HTTP server is a response script. BeautifulSoup and `json.loads` are a given function from body to items, where None stands for a missing script or undecodable JSON. Ill-typed JSON values are not modelled.
- `time.sleep` and the random delays: the scraper records its waits by kind, and the browser harvesters' delays are not modelled.
- Clock values: the clock is a script of elapsed microseconds; timestamps of the output file are not modelled.
- `Production.OverRuntime`: does not model floating-point rounding; it compares on reals.
- Logging and the JSON and CSV formats: files hold the records they would decode to. A write either fully succeeds or fails and is ignored; partial writes are not modelled.
- Signals arrive only where the main loop checks for them, as a script polled before each check. `KeyboardInterrupt` and unexpected exceptions in the scraper are modelled as the `fuel` of `Scraper.PropertyHarvester.Run`: the number of pages processed before the interrupt. An interrupt in the middle of a page is not modelled, and a scraper run that is never interrupted is not modelled beyond any fuel bound.
- Generic exceptions in the browser harvesters' run methods are not modelled, and neither is the `KeyboardInterrupt` that `run_test` of selenium_harvester.py catches on its own: Ctrl+C there skips the remaining clicks and the final harvest and goes straight to `save_results`.
- `Text.LastSplit`: the ensures fix the last piece only for a separator that cannot overlap itself. For the link marker, which starts and ends with `/`, a shorter suffix that follows a later, overlapping occurrence also meets them. The body cuts left to right at non-overlapping occurrences, as Python's `split` does.
- `Text.IsDigitString`: ASCII digits only; Python's `isdigit` also accepts other Unicode digits.
- `StringOrder.Sorted`: compares characters by their `char` values, which agrees with Python's code-point order.
- The environment variables: the production limits are constructor parameters, with the documented defaults as constants.
