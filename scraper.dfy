/**
 * scraper.py: the paginated HTTP harvester. The harvester is a class whose
 * methods update its fields in place; the server is a `Site` that answers
 * successive requests from a script, and the two JSON files live on a `Disk`.
 */
module Scraper {
  import opened Options
  import opened Storage
  import opened Scripts
  import opened ScraperPages

  /** The server, as the harvester sees it. */
  class Site {
    /** The answers to the coming requests; once used up, every request raises. */
    var responses: seq<Response>
    /**
     * The items of a body's `item-list-structured-data` script, or None when
     * the script is missing or its JSON does not decode (BeautifulSoup and
     * json.loads are not part of this model).
     */
    const parse: string -> Option<seq<Item>>
    /** The URLs requested so far, and the waits slept before retries. */
    ghost var requested: seq<string>
    ghost var waited: seq<Wait>

    constructor (responses: seq<Response>, parse: string -> Option<seq<Item>>)
      ensures this.responses == responses && this.parse == parse
      ensures requested == [] && waited == []
    {
      this.responses := responses;
      this.parse := parse;
      requested, waited := [], [];
    }

    method Get(url: string) returns (r: Response)
      modifies this`responses, this`requested
      ensures r == Next(old(responses), RequestError) && responses == Drop(old(responses))
      ensures requested == old(requested) + [url]
    {
      r := Next(responses, RequestError);
      responses := Drop(responses);
      requested := requested + [url];
    }

    method Sleep(w: Wait)
      modifies this`waited
      ensures waited == old(waited) + [w]
    {
      waited := waited + [w];
    }
  }

  /** The output file (the record list) and the progress file. */
  class Disk {
    var outputFile: Stored<seq<Property>>
    var progressFile: Stored<Checkpoint>
    /** Whether writes succeed; a failed write is logged and ignored. */
    const writable: bool

    constructor (outputFile: Stored<seq<Property>>, progressFile: Stored<Checkpoint>, writable: bool)
      ensures this.outputFile == outputFile && this.progressFile == progressFile && this.writable == writable
    {
      this.outputFile := outputFile;
      this.progressFile := progressFile;
      this.writable := writable;
    }
  }

  /** Why run stopped. */
  datatype RunEnd =
    | Interrupted      // the run was cut short (KeyboardInterrupt) before the next page
    | TooManyFailures  // MAX_CONSECUTIVE_FAILURES pages failed in a row
    | EndOfResults     // the first page to fail after a success

  /** n copies of one URL. */
  function Repeat(url: string, n: nat): seq<string> {
    if n == 0 then [] else [url] + Repeat(url, n - 1)
  }

  /** A fetch_page that ends after its first request. */
  lemma SingleRequest(responses: seq<Response>, url: string, requested: seq<string>, waited: seq<Wait>)
    ensures DropN(responses, 1) == Drop(responses)
    ensures requested + [url] == requested + Repeat(url, 1)
    ensures waited == waited + []
  {
    assert Repeat(url, 1) == [url] + [];
  }

  /**
   * One retry of fetch_page: the request made, its wait, then the retried
   * call's requests and waits, add up to the requests and waits of the whole.
   */
  lemma RetryStep(responses: seq<Response>, retryCount: nat, url: string, requested: seq<string>, waited: seq<Wait>)
    requires !IsOk(Next(responses, RequestError)) && retryCount < MaxRetries
    ensures var f := FetchPage(responses, retryCount);
      var rest := FetchPage(Drop(responses), retryCount + 1);
      && f.text == rest.text
      && DropN(Drop(responses), rest.requests) == DropN(responses, f.requests)
      && (requested + [url]) + Repeat(url, rest.requests) == requested + Repeat(url, f.requests)
      && (waited + [WaitAfter(Next(responses, RequestError))]) + rest.waits == waited + f.waits
  {
    var rest := FetchPage(Drop(responses), retryCount + 1);
    DropNDrop(responses, rest.requests);
  }

  /** One more page's outcome, seen by the counters run keeps about its pages. */
  lemma OneMorePage(outcomes: seq<PageOutcome>, o: PageOutcome, failures: int, failed: seq<int>, first: int)
    ensures var more := outcomes + [o];
      && FailedAfter(failed, more, first) == FailedAfter(failed, outcomes, first) + (if o.fetchFailed then [first + |outcomes|] else [])
      && FailuresAfter(failures, more) == (if o.success then 0 else FailuresAfter(failures, outcomes) + 1)
      && (GoesOn(failures, more) <==> GoesOn(failures, outcomes) && (o.success || !StopsAt(FailuresAfter(failures, more))))
      && more[..|outcomes|] == outcomes
  {
    var more := outcomes + [o];
    assert more[..|outcomes|] == outcomes;
  }

  class PropertyHarvester {
    var harvestedProperties: seq<Property>
    var currentPage: int
    var totalHarvested: int
    var failedPages: seq<int>
    var consecutiveFailures: int
    var lastSaveCount: int

    /** The fields the progress file keeps. */
    function Position(): Position
      reads this
    {
      ScraperPages.Position(currentPage, totalHarvested, failedPages)
    }

    constructor ()
      ensures harvestedProperties == [] && Position() == ScraperPages.Position(1, 0, [])
      ensures consecutiveFailures == 0 && lastSaveCount == 0
    {
      harvestedProperties := [];
      currentPage := 1;
      totalHarvested := 0;
      failedPages := [];
      consecutiveFailures := 0;
      lastSaveCount := 0;
    }

    /** load_progress: the progress file, then the output file, each left alone when absent or unreadable. */
    method LoadProgress(disk: Disk)
      modifies this`currentPage, this`totalHarvested, this`failedPages, this`harvestedProperties
      ensures Position() == Restore(disk.progressFile, old(Position()))
      ensures harvestedProperties == if disk.outputFile.Present? then disk.outputFile.record else old(harvestedProperties)
    {
      match disk.progressFile {
        case Present(c) =>
          currentPage := c.lastPage.GetOr(1);
          totalHarvested := c.totalHarvested.GetOr(0);
          failedPages := c.failedPages.GetOr([]);
        case _ =>
      }
      match disk.outputFile {
        case Present(records) =>
          harvestedProperties := records;
        case _ =>
      }
    }

    /**
     * save_progress: write both files when forced or when SAVE_INTERVAL
     * records were harvested since the last write; a write that happens
     * records the count it saved.
     */
    method SaveProgress(disk: Disk, force: bool)
      modifies disk`outputFile, disk`progressFile, this`lastSaveCount
      ensures var due := force || old(totalHarvested - lastSaveCount) >= SaveInterval;
        if due && disk.writable then
          && disk.outputFile == Present(harvestedProperties)
          && disk.progressFile == Present(CheckpointOf(Position()))
          && lastSaveCount == totalHarvested
        else
          && disk.outputFile == old(disk.outputFile)
          && disk.progressFile == old(disk.progressFile)
          && lastSaveCount == old(lastSaveCount)
      ensures disk.writable ==> totalHarvested - lastSaveCount < SaveInterval
    {
      var itemsSinceLastSave := totalHarvested - lastSaveCount;
      if force || itemsSinceLastSave >= SaveInterval {
        if disk.writable {
          disk.outputFile := Present(harvestedProperties);
          disk.progressFile := Present(CheckpointOf(Position()));
          lastSaveCount := totalHarvested;
        }
      }
    }

    /** fetch_page: request the page, and retry by recursion on `retryCount`. */
    method FetchPage(site: Site, pageNum: int, retryCount: nat) returns (text: Option<string>)
      modifies site
      ensures var f := ScraperPages.FetchPage(old(site.responses), retryCount);
        && text == f.text
        && site.responses == DropN(old(site.responses), f.requests)
        && site.requested == old(site.requested) + Repeat(PageUrl(pageNum), f.requests)
        && site.waited == old(site.waited) + f.waits
      decreases MaxRetries - retryCount
    {
      var url := PageUrl(pageNum);
      var response := site.Get(url);
      var overloaded := response.Response? && response.status == 500;
      if !overloaded && response.Response? && response.status == 200 {
        SingleRequest(old(site.responses), url, old(site.requested), old(site.waited));
        return Some(response.text);
      }
      // a 500, another status or a request error: retry while retries remain
      if retryCount >= MaxRetries {
        SingleRequest(old(site.responses), url, old(site.requested), old(site.waited));
        return None;
      }
      site.Sleep(if overloaded then OverloadWait else RetryWait);
      RetryStep(old(site.responses), retryCount, url, old(site.requested), old(site.waited));
      text := FetchPage(site, pageNum, retryCount + 1);
    }

    /**
     * process_page: fetch, extract and keep the records whose id is new; a
     * failed fetch is recorded in failedPages, an empty page only reported.
     */
    method ProcessPage(site: Site, pageNum: int) returns (success: bool)
      modifies this`harvestedProperties, this`totalHarvested, this`failedPages, site
      ensures var o := ProcessOutcome(old(site.responses), site.parse, old(harvestedProperties));
        && success == o.success
        && harvestedProperties == old(harvestedProperties) + o.added
        && totalHarvested == old(totalHarvested) + |o.added|
        && failedPages == old(failedPages) + (if o.fetchFailed then [pageNum] else [])
        && site.responses == DropN(old(site.responses), o.requests)
    {
      var htmlContent := FetchPage(site, pageNum, 0);
      if htmlContent.None? {
        failedPages := failedPages + [pageNum];
        return false;
      }
      var properties := Extract(site.parse(htmlContent.value).GetOr([]));
      if properties == [] {
        return false;
      }
      var existingIds := IdsOf(harvestedProperties);
      var newProperties := NewProperties(properties, existingIds);
      harvestedProperties := harvestedProperties + newProperties;
      totalHarvested := totalHarvested + |newProperties|;
      return true;
    }

    /** The harvester's records and the site's responses are where `run` has got to. */
    ghost predicate Tracks(run: PagesRun, site: Site)
      reads this`harvestedProperties, site`responses
    {
      run.records == harvestedProperties && run.responses == site.responses
    }

    /** The failed pages and the failure counter, after `outcomes` from the given start. */
    ghost predicate Counted(outcomes: seq<PageOutcome>, failed: seq<int>, failures: int, first: int)
      reads this`failedPages, this`consecutiveFailures
    {
      failedPages == FailedAfter(failed, outcomes, first) && consecutiveFailures == FailuresAfter(failures, outcomes)
    }

    /**
     * One pass of the `while True` loop up to its break tests: process_page on
     * the current page, then the failure counter reset or counted up.
     */
    method ProcessRound(site: Site, ghost run: PagesRun, ghost failed: seq<int>, ghost failures: int, ghost first: int)
      returns (success: bool)
      modifies this`harvestedProperties, this`totalHarvested, this`failedPages, this`consecutiveFailures, site
      requires Tracks(run, site)
      requires Counted(run.outcomes, failed, failures, first)
      requires currentPage == first + |run.outcomes|
      ensures var next := WithOutcome(run, ProcessOutcome(run.responses, site.parse, run.records));
        && Tracks(next, site)
        && Counted(next.outcomes, failed, failures, first)
        && success == next.outcomes[|run.outcomes|].success
        && (GoesOn(failures, next.outcomes) <==> GoesOn(failures, run.outcomes) && (success || !StopsAt(consecutiveFailures)))
      ensures totalHarvested - |harvestedProperties| == old(totalHarvested - |harvestedProperties|)
    {
      ghost var o := ProcessOutcome(site.responses, site.parse, harvestedProperties);
      success := ProcessPage(site, currentPage);
      OneMorePage(run.outcomes, o, failures, failed, first);
      if success {
        consecutiveFailures := 0;
      } else {
        consecutiveFailures := consecutiveFailures + 1;
      }
    }

    /** The end of a pass that did not break: save when due, then move to the next page. */
    method Advance(disk: Disk)
      modifies disk`outputFile, disk`progressFile, this`lastSaveCount, this`currentPage
      ensures currentPage == old(currentPage) + 1
      ensures !disk.writable ==> disk.outputFile == old(disk.outputFile) && disk.progressFile == old(disk.progressFile)
    {
      SaveProgress(disk, false);
      currentPage := currentPage + 1;
    }

    /**
     * One whole pass of the `while True` loop: process the current page, count
     * the failure, and either stop (the two break tests, MAX_CONSECUTIVE_FAILURES
     * first) or save when due and move to the next page.
     */
    method Pass(site: Site, disk: Disk, ghost run: PagesRun, ghost failed: seq<int>, ghost failures: int, ghost first: int)
      returns (stop: Option<RunEnd>)
      modifies this`harvestedProperties, this`totalHarvested, this`failedPages, this`consecutiveFailures, site
      modifies disk`outputFile, disk`progressFile, this`lastSaveCount, this`currentPage
      requires Tracks(run, site)
      requires Counted(run.outcomes, failed, failures, first)
      requires currentPage == first + |run.outcomes|
      ensures var next := WithOutcome(run, ProcessOutcome(run.responses, site.parse, run.records));
        var success := next.outcomes[|run.outcomes|].success;
        && Tracks(next, site)
        && Counted(next.outcomes, failed, failures, first)
        && stop == (if success then None
                    else if consecutiveFailures >= MaxConsecutiveFailures then Some(TooManyFailures)
                    else if consecutiveFailures == 1 then Some(EndOfResults)
                    else None)
        && (GoesOn(failures, next.outcomes) <==> GoesOn(failures, run.outcomes) && stop.None?)
      ensures currentPage == old(currentPage) + (if stop.None? then 1 else 0)
      ensures totalHarvested - |harvestedProperties| == old(totalHarvested - |harvestedProperties|)
      ensures !disk.writable ==> disk.outputFile == old(disk.outputFile) && disk.progressFile == old(disk.progressFile)
    {
      var success := ProcessRound(site, run, failed, failures, first);
      if !success {
        if consecutiveFailures >= MaxConsecutiveFailures {
          return Some(TooManyFailures);
        }
        if !success && consecutiveFailures == 1 {
          return Some(EndOfResults);
        }
      }
      Advance(disk);
      return None;
    }

    /**
     * The `while True` loop of run: process pages from currentPage on, stop
     * on a failure the counter says ends the run, else save when due and move
     * to the next page; `fuel` is the number of pages processed before an
     * interrupt arrives. The ghost `outcomes` are the pages' process_page
     * outcomes, in order.
     */
    method ProcessPages(site: Site, disk: Disk, fuel: nat) returns (end: RunEnd, ghost outcomes: seq<PageOutcome>)
      modifies this`harvestedProperties, this`totalHarvested, this`failedPages, this`currentPage
      modifies this`consecutiveFailures, this`lastSaveCount, site, disk
      ensures var run := PagesFrom(old(site.responses), ProcessStep(site.parse), old(harvestedProperties), |outcomes|);
        && run.outcomes == outcomes
        && run.records == harvestedProperties
        && run.responses == site.responses
      ensures totalHarvested - |harvestedProperties| == old(totalHarvested - |harvestedProperties|)
      ensures failedPages == FailedAfter(old(failedPages), outcomes, old(currentPage))
      ensures consecutiveFailures == FailuresAfter(old(consecutiveFailures), outcomes)
      ensures |outcomes| <= fuel
      ensures end == Interrupted ==>
        && |outcomes| == fuel
        && GoesOn(old(consecutiveFailures), outcomes)
        && currentPage == old(currentPage) + |outcomes|
      ensures end != Interrupted ==>
        && |outcomes| >= 1
        && GoesOn(old(consecutiveFailures), outcomes[..|outcomes| - 1])
        && !outcomes[|outcomes| - 1].success
        && StopsAt(consecutiveFailures)
        && currentPage == old(currentPage) + |outcomes| - 1
      ensures end == TooManyFailures <==> end != Interrupted && consecutiveFailures >= MaxConsecutiveFailures
      ensures !disk.writable ==> disk.outputFile == old(disk.outputFile) && disk.progressFile == old(disk.progressFile)
    {
      ghost var responses0, records0, failed0, failures0, page0 := site.responses, harvestedProperties, failedPages, consecutiveFailures, currentPage;
      end := Interrupted;
      outcomes := [];
      var steps: nat := 0;
      while steps < fuel
        invariant steps <= fuel && |outcomes| == steps
        invariant var run := PagesFrom(responses0, ProcessStep(site.parse), records0, steps);
          run.outcomes == outcomes && Tracks(run, site)
        invariant Counted(outcomes, failed0, failures0, page0)
        invariant totalHarvested - |harvestedProperties| == old(totalHarvested - |harvestedProperties|)
        invariant GoesOn(failures0, outcomes)
        invariant currentPage == page0 + steps
        invariant end == Interrupted
        invariant !disk.writable ==> disk.outputFile == old(disk.outputFile) && disk.progressFile == old(disk.progressFile)
      {
        ghost var before := outcomes;
        PagesFromProcessed(responses0, site.parse, records0, steps);
        var stop := Pass(site, disk, PagesFrom(responses0, ProcessStep(site.parse), records0, steps), failed0, failures0, page0);
        outcomes := PagesFrom(responses0, ProcessStep(site.parse), records0, steps + 1).outcomes;
        if stop.Some? {
          end := stop.value;
          assert |outcomes| == steps + 1 && outcomes[..steps] == before;
          break;
        }
        steps := steps + 1;
      }
    }

    /**
     * run: load, process pages, and save (forced) whatever ended the loop. From
     * a failure counter at 0, as a new harvester has it, every page but the
     * one that ended the run succeeded, and the three-failures stop never fires.
     */
    method Run(site: Site, disk: Disk, fuel: nat) returns (end: RunEnd, ghost outcomes: seq<PageOutcome>)
      modifies this, site, disk
      ensures var loaded := Restore(old(disk.progressFile), old(Position()));
        var loadedRecords := if old(disk.outputFile).Present? then old(disk.outputFile).record else old(harvestedProperties);
        var run := PagesFrom(old(site.responses), ProcessStep(site.parse), loadedRecords, |outcomes|);
        && run.outcomes == outcomes
        && run.records == harvestedProperties
        && run.responses == site.responses
        && totalHarvested - |harvestedProperties| == loaded.totalHarvested - |loadedRecords|
        && failedPages == FailedAfter(loaded.failedPages, outcomes, loaded.currentPage)
        && currentPage == loaded.currentPage + |outcomes| - (if end == Interrupted then 0 else 1)
      ensures consecutiveFailures == FailuresAfter(old(consecutiveFailures), outcomes)
      ensures |outcomes| <= fuel
      ensures end == Interrupted ==> |outcomes| == fuel
      ensures end != Interrupted ==> |outcomes| >= 1 && !outcomes[|outcomes| - 1].success
      ensures old(consecutiveFailures) == 0 && end == Interrupted ==> forall j :: 0 <= j < |outcomes| ==> outcomes[j].success
      ensures old(consecutiveFailures) == 0 && end != Interrupted ==>
        && end == EndOfResults
        && forall j :: 0 <= j < |outcomes| - 1 ==> outcomes[j].success
      ensures disk.writable ==>
        && disk.outputFile == Present(harvestedProperties)
        && disk.progressFile == Present(CheckpointOf(Position()))
        && lastSaveCount == totalHarvested
      ensures !disk.writable ==> disk.outputFile == old(disk.outputFile) && disk.progressFile == old(disk.progressFile)
    {
      LoadProgress(disk);
      end, outcomes := ProcessPages(site, disk, fuel);
      if old(consecutiveFailures) == 0 {
        if end == Interrupted {
          GoesOnFresh(outcomes);
        } else {
          FreshRunEnds(outcomes);
        }
      }
      // the finally block
      SaveProgress(disk, true);
    }
  }
}
