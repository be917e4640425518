/**
 * The pure part of scraper.py: the URL of a listing page, the filter that
 * turns the page's structured-data items into property records, the retry
 * recursion of fetch_page over the server's responses, the de-duplication of
 * process_page, and the progress checkpoint.
 */
module ScraperPages {
  import opened Options
  import opened Storage
  import opened Scripts
  import opened Text

  const BaseUrl: string := "https://www.thinkspain.com/property-for-sale"
  /** Seconds between pages; a failed request waits twice this long. */
  const DelaySeconds: nat := 1
  /** Seconds to wait after a status 500 ("server overload"). */
  const DelayOn500: nat := 10
  const MaxRetries: nat := 5
  /** Records harvested since the last save that make a periodic save due. */
  const SaveInterval: int := 1000
  const MaxConsecutiveFailures: int := 3

  const PageQuery: string := "?numpag="

  /** get_page_url: page 1 is the listing itself, every other page adds `?numpag=`. */
  function PageUrl(pageNum: int): (url: string)
    ensures StartsWith(url, BaseUrl)
    ensures pageNum == 1 <==> url == BaseUrl
  {
    if pageNum == 1 then BaseUrl else BaseUrl + PageQuery + IntToDecimal(pageNum)
  }

  /** The query of every page but the first carries the page number in decimal. */
  lemma PageUrlQuery(pageNum: int)
    requires pageNum != 1
    ensures PageUrl(pageNum)[..|BaseUrl| + |PageQuery|] == BaseUrl + PageQuery
    ensures PageUrl(pageNum)[|BaseUrl| + |PageQuery|..] == IntToDecimal(pageNum)
  {
    var url := PageUrl(pageNum);
    assert url == (BaseUrl + PageQuery) + IntToDecimal(pageNum);
  }

  /** Distinct pages have distinct URLs. */
  lemma PageUrlInjective(a: int, b: int)
    requires PageUrl(a) == PageUrl(b)
    ensures a == b
  {
    if a != 1 && b != 1 {
      PageUrlQuery(a);
      PageUrlQuery(b);
      IntToDecimalInjective(a, b);
    }
  }

  // ---------------------------------------------------------------- extraction

  /** The `item` object of a ListItem; a key that is absent is None. */
  datatype Product = Product(productId: Option<string>, atId: Option<string>, url: Option<string>)

  /** One entry of `itemListElement`; an absent `item` reads as the empty object. */
  datatype Item = Item(typ: Option<string>, product: Option<Product>)

  /** A harvested record, `{'id': ..., 'url': ...}`. */
  datatype Property = Property(id: string, url: string)

  /** Python truthiness of an optional string: present and non-empty. */
  predicate Truthy(s: Option<string>) {
    s.Some? && s.value != ""
  }

  /** `a or b` on two optional strings, with an absent or empty result read as "". */
  function OrElse(a: Option<string>, b: string): string {
    if Truthy(a) then a.value else b
  }

  /**
   * The id of a product: `productID`, or else the last `/`-segment of `@id`,
   * which names the final segment of `@id` and contains no `/`.
   */
  function PropertyId(p: Product): (id: string)
    ensures Truthy(p.productId) ==> id == p.productId.value
    ensures !Truthy(p.productId) ==> '/' !in id && IsSuffix(id, p.atId.GetOr(""))
    ensures !Truthy(p.productId) && !Contains(p.atId.GetOr(""), "/") ==> id == p.atId.GetOr("")
    ensures !Truthy(p.productId) && Contains(p.atId.GetOr(""), "/") ==> FollowsCut(p.atId.GetOr(""), "/", id)
  {
    var fallback := LastSplit(p.atId.GetOr(""), "/");
    CharNotOccurring(fallback, '/');
    OrElse(p.productId, fallback)
  }

  /** The url of a product: `url`, or else `@id`; empty only when both are. */
  function PropertyUrl(p: Product): (url: string)
    ensures url != "" <==> Truthy(p.url) || Truthy(p.atId)
    ensures Truthy(p.url) ==> url == p.url.value
    ensures url != "" && !Truthy(p.url) ==> url == p.atId.value
  {
    OrElse(p.url, p.atId.GetOr(""))
  }

  /**
   * The record one item contributes, if any: a `ListItem` with an `item`
   * object yields one exactly when the product's id and url are both
   * non-empty, and then it is that id and url; its fields are never empty, a
   * product with both `productID` and `url` yields exactly those, and an id
   * taken from `@id` has no `/`.
   */
  function ItemProperty(item: Item): (r: Option<Property>)
    ensures r.Some? <==> item.typ == Some("ListItem") && item.product.Some?
                         && PropertyId(item.product.value) != "" && PropertyUrl(item.product.value) != ""
    ensures r.Some? ==> r.value == Property(PropertyId(item.product.value), PropertyUrl(item.product.value))
    ensures r.Some? ==> r.value.id != "" && r.value.url != ""
    ensures item.typ == Some("ListItem") && item.product.Some?
            && Truthy(item.product.value.productId) && Truthy(item.product.value.url)
            ==> r == Some(Property(item.product.value.productId.value, item.product.value.url.value))
    ensures r.Some? && !Truthy(item.product.value.productId) ==> '/' !in r.value.id
  {
    var product := item.product.GetOr(Product(None, None, None));
    assert item.product.None? ==> PropertyId(product) == "";
    if item.typ == Some("ListItem") && PropertyId(product) != "" && PropertyUrl(product) != "" then
      Some(Property(PropertyId(product), PropertyUrl(product)))
    else
      None
  }

  /** The loop of extract_properties_from_html over the item list. */
  function Extract(items: seq<Item>): (r: seq<Property>)
    ensures |r| <= |items|
    ensures forall i :: 0 <= i < |r| ==> r[i].id != "" && r[i].url != ""
  {
    if items == [] then []
    else
      var rest := Extract(items[1..]);
      var first := ItemProperty(items[0]);
      if first.None? then rest
      else
        var r := [first.value] + rest;
        assert forall i :: 0 < i < |r| ==> r[i] == rest[i - 1];
        r
  }

  /** Extraction treats the items one at a time, keeping their order. */
  lemma {:induction false} ExtractAppend(a: seq<Item>, b: seq<Item>)
    ensures Extract(a + b) == Extract(a) + Extract(b)
  {
    if a == [] {
      assert a + b == b;
    } else {
      assert (a + b)[1..] == a[1..] + b;
      ExtractAppend(a[1..], b);
    }
  }

  /** A record is extracted exactly when some item yields it. */
  lemma {:induction false} ExtractMembers(items: seq<Item>, p: Property)
    ensures p in Extract(items) <==> exists i :: 0 <= i < |items| && ItemProperty(items[i]) == Some(p)
  {
    if items != [] {
      var rest := items[1..];
      ExtractMembers(rest, p);
      assert p in Extract(items) <==> ItemProperty(items[0]) == Some(p) || p in Extract(rest);
      if p in Extract(rest) {
        var i :| 0 <= i < |rest| && ItemProperty(rest[i]) == Some(p);
        assert items[i + 1] == rest[i];
      }
      if exists i :: 0 <= i < |items| && ItemProperty(items[i]) == Some(p) {
        var i :| 0 <= i < |items| && ItemProperty(items[i]) == Some(p);
        if i > 0 {
          assert rest[i - 1] == items[i];
        }
      }
    }
  }

  // ---------------------------------------------------------------- fetching

  /** What one request gets: a response with its status and body, or a requests exception. */
  datatype Response = Response(status: int, text: string) | RequestError

  /** The two waits before a retry: DELAY_ON_500 after a 500, DELAY_SECONDS * 2 otherwise. */
  datatype Wait = OverloadWait | RetryWait

  /** The seconds a wait lasts: every retry sleeps, and none longer than DELAY_ON_500. */
  function WaitSeconds(w: Wait): (seconds: nat)
    ensures DelaySeconds * 2 <= seconds <= DelayOn500
  {
    match w
    case OverloadWait => DelayOn500
    case RetryWait => DelaySeconds * 2
  }

  predicate IsOk(r: Response) {
    r.Response? && r.status == 200
  }

  /** The wait a failed response calls for: ten seconds after a 500, two after anything else. */
  function WaitAfter(r: Response): (w: Wait)
    ensures WaitSeconds(w) == if r.Response? && r.status == 500 then 10 else 2
  {
    if r.Response? && r.status == 500 then OverloadWait else RetryWait
  }

  /** How fetch_page ends: the body (None: given up), the requests made and the waits in between. */
  datatype Fetched = Fetched(text: Option<string>, requests: nat, waits: seq<Wait>)

  function Retried(w: Wait, rest: Fetched): Fetched {
    Fetched(rest.text, rest.requests + 1, [w] + rest.waits)
  }

  /**
   * fetch_page over the responses the server gives to this page's successive
   * requests (a used-up script reads as a request error): a 200 returns its
   * body; any other outcome retries while `retryCount < MAX_RETRIES`.
   */
  function FetchPage(responses: seq<Response>, retryCount: nat): (r: Fetched)
    ensures r.requests >= 1 && |r.waits| == r.requests - 1
    ensures retryCount <= MaxRetries ==> r.requests <= MaxRetries + 1 - retryCount
    ensures retryCount >= MaxRetries ==> r.requests == 1
    decreases MaxRetries - retryCount
  {
    var response := Next(responses, RequestError);
    if IsOk(response) then Fetched(Some(response.text), 1, [])
    else if retryCount < MaxRetries then
      Retried(WaitAfter(response), FetchPage(Drop(responses), retryCount + 1))
    else Fetched(None, 1, [])
  }

  /** A request that failed and the wait that followed it. */
  predicate FailedThenWaited(response: Response, w: Wait) {
    !IsOk(response) && w == WaitAfter(response)
  }

  /**
   * The requests of fetch_page before the last one: each failed and was
   * followed by the wait its failure calls for.
   */
  lemma {:induction false} FetchPageFailures(responses: seq<Response>, retryCount: nat)
    ensures var r := FetchPage(responses, retryCount);
      forall j :: 0 <= j < r.requests - 1 ==> FailedThenWaited(At(responses, j, RequestError), r.waits[j])
    decreases MaxRetries - retryCount
  {
    AtDrop(responses, 0, RequestError);
    var response := Next(responses, RequestError);
    if !IsOk(response) && retryCount < MaxRetries {
      var rest := FetchPage(Drop(responses), retryCount + 1);
      FetchPageFailures(Drop(responses), retryCount + 1);
      var r := FetchPage(responses, retryCount);
      assert r == Retried(WaitAfter(response), rest);
      forall j | 0 <= j < r.requests - 1
        ensures FailedThenWaited(At(responses, j, RequestError), r.waits[j])
      {
        if j == 0 {
          assert r.waits[0] == WaitAfter(response);
          assert FailedThenWaited(response, r.waits[0]);
        } else {
          assert FailedThenWaited(At(Drop(responses), j - 1, RequestError), rest.waits[j - 1]);
          AtDrop(responses, j - 1, RequestError);
          assert r.waits[j] == rest.waits[j - 1];
        }
      }
    }
  }

  /**
   * How fetch_page ends, given the last response it got: with a body exactly
   * when that response is a 200, and then with its body; without one only
   * once the retries are exhausted.
   */
  predicate EndsWith(r: Fetched, last: Response, retryCount: nat) {
    && (r.text.Some? <==> IsOk(last))
    && (r.text.Some? ==> r.text.value == last.text)
    && (r.text.None? ==> retryCount + r.requests - 1 >= MaxRetries)
  }

  /** fetch_page ends as its last request's response says. */
  lemma {:induction false} FetchPageOutcome(responses: seq<Response>, retryCount: nat)
    ensures var r := FetchPage(responses, retryCount);
      EndsWith(r, At(responses, r.requests - 1, RequestError), retryCount)
    decreases MaxRetries - retryCount
  {
    AtDrop(responses, 0, RequestError);
    var response := Next(responses, RequestError);
    var r := FetchPage(responses, retryCount);
    if !IsOk(response) && retryCount < MaxRetries {
      var rest := FetchPage(Drop(responses), retryCount + 1);
      assert r == Retried(WaitAfter(response), rest);
      FetchPageOutcome(Drop(responses), retryCount + 1);
      var last := At(Drop(responses), rest.requests - 1, RequestError);
      assert EndsWith(rest, last, retryCount + 1);
      AtDrop(responses, rest.requests - 1, RequestError);
      assert At(responses, r.requests - 1, RequestError) == last;
      assert EndsWith(r, last, retryCount);
    } else {
      assert r.requests == 1;
      assert At(responses, r.requests - 1, RequestError) == response;
      assert EndsWith(r, response, retryCount);
    }
  }

  /** A server that keeps answering 500 is asked MAX_RETRIES + 1 times, with the overload wait between. */
  lemma {:induction false} OverloadedServer(responses: seq<Response>, retryCount: nat)
    requires retryCount <= MaxRetries
    requires forall j :: 0 <= j < |responses| ==> responses[j].Response? && responses[j].status == 500
    requires |responses| >= MaxRetries + 1 - retryCount
    ensures FetchPage(responses, retryCount) == Fetched(None, MaxRetries + 1 - retryCount, seq(MaxRetries - retryCount, _ => OverloadWait))
    decreases MaxRetries - retryCount
  {
    if retryCount < MaxRetries {
      OverloadedServer(responses[1..], retryCount + 1);
    }
  }

  // ---------------------------------------------------------------- de-duplication

  /** The ids of a list of records. */
  function IdsOf(records: seq<Property>): (ids: set<string>)
    ensures forall i :: 0 <= i < |records| ==> records[i].id in ids
    ensures forall id :: id in ids ==> exists i :: 0 <= i < |records| && records[i].id == id
  {
    if records == [] then {} else IdsOf(records[..|records| - 1]) + {records[|records| - 1].id}
  }

  /** The records of a page whose id was not harvested before the page; repeats within the page stay. */
  function NewProperties(page: seq<Property>, existing: set<string>): (r: seq<Property>)
    ensures |r| <= |page|
    ensures forall i :: 0 <= i < |r| ==> r[i].id !in existing
  {
    if page == [] then []
    else if page[0].id in existing then NewProperties(page[1..], existing)
    else [page[0]] + NewProperties(page[1..], existing)
  }

  /** The filter works record by record, in order. */
  lemma {:induction false} NewPropertiesAppend(a: seq<Property>, b: seq<Property>, existing: set<string>)
    ensures NewProperties(a + b, existing) == NewProperties(a, existing) + NewProperties(b, existing)
  {
    if a == [] {
      assert a + b == b;
    } else {
      assert (a + b)[1..] == a[1..] + b;
      NewPropertiesAppend(a[1..], b, existing);
    }
  }

  /** A record is kept exactly when it is on the page and its id is not among the existing ones. */
  lemma {:induction false} NewPropertiesMembers(page: seq<Property>, existing: set<string>, p: Property)
    ensures p in NewProperties(page, existing) <==> p in page && p.id !in existing
  {
    if page != [] {
      NewPropertiesMembers(page[1..], existing, p);
      assert p in page <==> p == page[0] || p in page[1..];
    }
  }

  /** A page with no known id is kept whole, repeats included. */
  lemma {:induction false} NewPropertiesAllFresh(page: seq<Property>, existing: set<string>)
    requires forall i :: 0 <= i < |page| ==> page[i].id !in existing
    ensures NewProperties(page, existing) == page
  {
    if page != [] {
      NewPropertiesAllFresh(page[1..], existing);
    }
  }

  /** A page harvested a second time contributes nothing. */
  lemma {:induction false} NewPropertiesAgain(harvested: seq<Property>, page: seq<Property>)
    ensures NewProperties(page, IdsOf(harvested + NewProperties(page, IdsOf(harvested)))) == []
  {
    var added := NewProperties(page, IdsOf(harvested));
    var after := IdsOf(harvested + added);
    forall i | 0 <= i < |page|
      ensures page[i].id in after
    {
      if page[i].id in IdsOf(harvested) {
        var k :| 0 <= k < |harvested| && harvested[k].id == page[i].id;
        assert (harvested + added)[k] == harvested[k];
      } else {
        NewPropertiesMembers(page, IdsOf(harvested), page[i]);
        var k :| 0 <= k < |added| && added[k] == page[i];
        assert (harvested + added)[|harvested| + k] == added[k];
      }
    }
    NoneNew(page, after);
  }

  lemma {:induction false} NoneNew(page: seq<Property>, existing: set<string>)
    requires forall i :: 0 <= i < |page| ==> page[i].id in existing
    ensures NewProperties(page, existing) == []
  {
    if page != [] {
      NoneNew(page[1..], existing);
    }
  }

  /** What process_page does to the records: fetch failed, succeeded, and the records added. */
  datatype PageOutcome = PageOutcome(success: bool, fetchFailed: bool, added: seq<Property>, requests: nat)

  /**
   * process_page given the page's responses, the body parser and the records
   * harvested so far: a failed fetch or an empty page is not a success and
   * adds nothing; otherwise the page's records with a new id are added.
   */
  function ProcessOutcome(responses: seq<Response>, parse: string -> Option<seq<Item>>, harvested: seq<Property>): (o: PageOutcome)
    ensures o.fetchFailed <==> FetchPage(responses, 0).text.None?
    ensures o.requests == FetchPage(responses, 0).requests
    ensures o.fetchFailed ==> !o.success
    ensures !o.success ==> o.added == []
    ensures forall i :: 0 <= i < |o.added| ==> o.added[i].id !in IdsOf(harvested)
  {
    var f := FetchPage(responses, 0);
    if f.text.None? then PageOutcome(false, true, [], f.requests)
    else
      var page := Extract(parse(f.text.value).GetOr([]));
      if page == [] then PageOutcome(false, false, [], f.requests)
      else PageOutcome(true, false, NewProperties(page, IdsOf(harvested)), f.requests)
  }

  /** A page succeeds exactly when its body is fetched and yields a record; then its new records are added. */
  lemma ProcessOutcomeSuccess(responses: seq<Response>, parse: string -> Option<seq<Item>>, harvested: seq<Property>)
    ensures var o := ProcessOutcome(responses, parse, harvested);
      var f := FetchPage(responses, 0);
      && (o.success <==> f.text.Some? && Extract(parse(f.text.value).GetOr([])) != [])
      && (o.success ==> o.added == NewProperties(Extract(parse(f.text.value).GetOr([])), IdsOf(harvested)))
  {
  }

  // ---------------------------------------------------------------- runs of pages

  /** `b` is `a` with more entries after it. */
  predicate Extends<T(==)>(a: seq<T>, b: seq<T>) {
    |a| <= |b| && b[..|a|] == a
  }

  /** Where a run of successive pages has got to: their outcomes, the records and the responses left. */
  datatype PagesRun = PagesRun(outcomes: seq<PageOutcome>, records: seq<Property>, responses: seq<Response>)

  /** The records the outcomes add, in order. */
  function AddedBy(outcomes: seq<PageOutcome>): seq<Property>
    decreases |outcomes|
  {
    if |outcomes| == 0 then [] else AddedBy(outcomes[..|outcomes| - 1]) + outcomes[|outcomes| - 1].added
  }

  /** The requests the outcomes made, in total. */
  function RequestsOf(outcomes: seq<PageOutcome>): nat
    decreases |outcomes|
  {
    if |outcomes| == 0 then 0 else RequestsOf(outcomes[..|outcomes| - 1]) + outcomes[|outcomes| - 1].requests
  }

  /** A run with one more page, whose outcome is `o`: its records appended and its requests consumed. */
  function WithOutcome(run: PagesRun, o: PageOutcome): PagesRun {
    PagesRun(run.outcomes + [o], run.records + o.added, DropN(run.responses, o.requests))
  }

  /** A page of a run: its outcome from the responses left and the records so far. */
  type PageStep = (seq<Response>, seq<Property>) -> PageOutcome

  /** process_page as a page of a run, with `parse` reading the bodies. */
  function ProcessStep(parse: string -> Option<seq<Item>>): PageStep {
    (responses: seq<Response>, harvested: seq<Property>) => ProcessOutcome(responses, parse, harvested)
  }

  /** The next page of a run, from where it has got to. */
  function NextPage(run: PagesRun, step: PageStep): PagesRun {
    WithOutcome(run, step(run.responses, run.records))
  }

  /**
   * `n` pages processed one after the other by `step` from the responses and
   * records given: one outcome per page, the records grown by what the pages
   * added, and the responses left once their requests are consumed. The loop
   * of run is this with ProcessStep.
   */
  function PagesFrom(responses: seq<Response>, step: PageStep, harvested: seq<Property>, n: nat): (run: PagesRun)
    ensures |run.outcomes| == n
    decreases n
  {
    if n == 0 then PagesRun([], harvested, responses)
    else
      var before := PagesFrom(responses, step, harvested, n - 1);
      NextPage(before, step)
  }

  /** One more page of a harvester's run is process_page from where the run has got to. */
  lemma PagesFromProcessed(responses: seq<Response>, parse: string -> Option<seq<Item>>, harvested: seq<Property>, n: nat)
    ensures var run := PagesFrom(responses, ProcessStep(parse), harvested, n);
      PagesFrom(responses, ProcessStep(parse), harvested, n + 1) == WithOutcome(run, ProcessOutcome(run.responses, parse, run.records))
  {
  }

  /** A run's records are those it starts with and then what each page added; its requests consume the responses. */
  lemma PagesFromAccounts(responses: seq<Response>, step: PageStep, harvested: seq<Property>, n: nat)
    ensures var run := PagesFrom(responses, step, harvested, n);
      && run.records == harvested + AddedBy(run.outcomes)
      && run.responses == DropN(responses, RequestsOf(run.outcomes))
  {
    PagesFromRecords(responses, step, harvested, n);
    PagesFromResponses(responses, step, harvested, n);
  }

  /** A run's records are those it starts with and then what each page added. */
  lemma {:induction false} PagesFromRecords(responses: seq<Response>, step: PageStep, harvested: seq<Property>, n: nat)
    ensures var run := PagesFrom(responses, step, harvested, n);
      run.records == harvested + AddedBy(run.outcomes)
    decreases n
  {
    if n > 0 {
      PagesFromRecords(responses, step, harvested, n - 1);
      PagesFromStep(responses, step, harvested, n);
      var run := PagesFrom(responses, step, harvested, n);
      StepAdded(harvested, PagesFrom(responses, step, harvested, n - 1), run.outcomes[n - 1]);
    }
  }

  /** A run's requests consume the responses. */
  lemma {:induction false} PagesFromResponses(responses: seq<Response>, step: PageStep, harvested: seq<Property>, n: nat)
    ensures var run := PagesFrom(responses, step, harvested, n);
      run.responses == DropN(responses, RequestsOf(run.outcomes))
    decreases n
  {
    if n > 0 {
      PagesFromResponses(responses, step, harvested, n - 1);
      PagesFromStep(responses, step, harvested, n);
      var run := PagesFrom(responses, step, harvested, n);
      StepRequested(responses, PagesFrom(responses, step, harvested, n - 1), run.outcomes[n - 1]);
    }
  }

  /** A run of `n` pages is the run of `n - 1` pages with the last outcome recorded. */
  lemma PagesFromStep(responses: seq<Response>, step: PageStep, harvested: seq<Property>, n: nat)
    requires n > 0
    ensures var run := PagesFrom(responses, step, harvested, n);
      run == WithOutcome(PagesFrom(responses, step, harvested, n - 1), run.outcomes[n - 1])
  {
  }

  /** One more outcome keeps the records of a run accounted for. */
  lemma StepAdded(harvested: seq<Property>, before: PagesRun, o: PageOutcome)
    requires before.records == harvested + AddedBy(before.outcomes)
    ensures var after := WithOutcome(before, o);
      after.records == harvested + AddedBy(after.outcomes)
  {
    var outcomes := before.outcomes + [o];
    assert outcomes[..|outcomes| - 1] == before.outcomes;
  }

  /** One more outcome keeps the responses of a run accounted for. */
  lemma StepRequested(responses: seq<Response>, before: PagesRun, o: PageOutcome)
    requires before.responses == DropN(responses, RequestsOf(before.outcomes))
    ensures var after := WithOutcome(before, o);
      after.responses == DropN(responses, RequestsOf(after.outcomes))
  {
    var outcomes := before.outcomes + [o];
    assert outcomes[..|outcomes| - 1] == before.outcomes;
    DropNDropN(responses, RequestsOf(before.outcomes), o.requests);
  }

  /** A run only adds records to those it starts with. */
  lemma PagesFromExtends(responses: seq<Response>, step: PageStep, harvested: seq<Property>, n: nat)
    ensures Extends(harvested, PagesFrom(responses, step, harvested, n).records)
  {
    PagesFromAccounts(responses, step, harvested, n);
    var run := PagesFrom(responses, step, harvested, n);
    assert run.records[..|harvested|] == harvested;
  }

  /**
   * Seen from its start, a run is its first page on the responses and records
   * it starts with, then the rest of the run from the state that page leaves.
   */
  lemma {:induction false} PagesFromFirst(responses: seq<Response>, step: PageStep, harvested: seq<Property>, n: nat)
    requires n >= 1
    ensures var o := step(responses, harvested);
      var run := PagesFrom(responses, step, harvested, n);
      var rest := PagesFrom(DropN(responses, o.requests), step, harvested + o.added, n - 1);
      && run.outcomes == [o] + rest.outcomes
      && run.records == rest.records
      && run.responses == rest.responses
    decreases n
  {
    var o := step(responses, harvested);
    if n > 1 {
      PagesFromFirst(responses, step, harvested, n - 1);
      var rest := PagesFrom(DropN(responses, o.requests), step, harvested + o.added, n - 2);
      ConsSnoc(o, rest.outcomes, step(rest.responses, rest.records));
    }
  }

  lemma ConsSnoc<T>(a: T, s: seq<T>, b: T)
    ensures [a] + s + [b] == [a] + (s + [b])
  {
  }

  /** The failure counter of run after the outcomes, from `start`: reset by a success, one up on a failure. */
  function FailuresAfter(start: int, outcomes: seq<PageOutcome>): int
    decreases |outcomes|
  {
    if |outcomes| == 0 then start
    else if outcomes[|outcomes| - 1].success then 0
    else FailuresAfter(start, outcomes[..|outcomes| - 1]) + 1
  }

  /** A failure that takes the counter to `failures` ends run: MAX_CONSECUTIVE_FAILURES reached, or the first failure after a success. */
  predicate StopsAt(failures: int) {
    failures >= MaxConsecutiveFailures || failures == 1
  }

  /** None of the outcomes ended run, from a counter starting at `start`. */
  predicate GoesOn(start: int, outcomes: seq<PageOutcome>)
    decreases |outcomes|
  {
    |outcomes| > 0 ==>
      && GoesOn(start, outcomes[..|outcomes| - 1])
      && (outcomes[|outcomes| - 1].success || !StopsAt(FailuresAfter(start, outcomes)))
  }

  /** From a counter at 0, run goes on only through successes: its first failure ends it. */
  lemma {:induction false} GoesOnFresh(outcomes: seq<PageOutcome>)
    requires GoesOn(0, outcomes)
    ensures forall j :: 0 <= j < |outcomes| ==> outcomes[j].success
    ensures FailuresAfter(0, outcomes) == 0
    decreases |outcomes|
  {
    if |outcomes| > 0 {
      var n := |outcomes| - 1;
      GoesOnFresh(outcomes[..n]);
      assert forall j :: 0 <= j < n ==> outcomes[..n][j] == outcomes[j];
    }
  }

  /** From a counter at 0, a run ended by a failure succeeded on every page before it, and its counter ends at 1. */
  lemma FreshRunEnds(outcomes: seq<PageOutcome>)
    requires |outcomes| >= 1 && GoesOn(0, outcomes[..|outcomes| - 1]) && !outcomes[|outcomes| - 1].success
    ensures forall j :: 0 <= j < |outcomes| - 1 ==> outcomes[j].success
    ensures FailuresAfter(0, outcomes) == 1
  {
    var n := |outcomes| - 1;
    GoesOnFresh(outcomes[..n]);
    assert forall j :: 0 <= j < n ==> outcomes[..n][j] == outcomes[j];
  }

  /** The failed pages after the outcomes: `failed`, then the numbers, from `first` on, of the pages whose fetch failed. */
  function FailedAfter(failed: seq<int>, outcomes: seq<PageOutcome>, first: int): seq<int>
    decreases |outcomes|
  {
    if |outcomes| == 0 then failed
    else
      var n := |outcomes| - 1;
      FailedAfter(failed, outcomes[..n], first) + (if outcomes[n].fetchFailed then [first + n] else [])
  }

  /** A page is listed as failed exactly when it already was or its fetch failed. */
  lemma {:induction false} FailedAfterMembers(failed: seq<int>, outcomes: seq<PageOutcome>, first: int, page: int)
    ensures page in FailedAfter(failed, outcomes, first) <==>
      page in failed || exists j :: 0 <= j < |outcomes| && outcomes[j].fetchFailed && page == first + j
    decreases |outcomes|
  {
    if |outcomes| > 0 {
      var n := |outcomes| - 1;
      FailedAfterMembers(failed, outcomes[..n], first, page);
      if exists j :: 0 <= j < |outcomes| && outcomes[j].fetchFailed && page == first + j {
        var j :| 0 <= j < |outcomes| && outcomes[j].fetchFailed && page == first + j;
        if j < n {
          assert outcomes[..n][j] == outcomes[j];
        }
      }
      if exists j :: 0 <= j < n && outcomes[..n][j].fetchFailed && page == first + j {
        var j :| 0 <= j < n && outcomes[..n][j].fetchFailed && page == first + j;
        assert outcomes[j] == outcomes[..n][j];
      }
    }
  }

  // ---------------------------------------------------------------- checkpoint

  /** The keys of the progress file; a missing key is None (`last_update` is not modelled). */
  datatype Checkpoint = Checkpoint(lastPage: Option<int>, totalHarvested: Option<int>, failedPages: Option<seq<int>>)

  /** The part of the harvester the progress file keeps. */
  datatype Position = Position(currentPage: int, totalHarvested: int, failedPages: seq<int>)

  /** What save_progress writes to the progress file. */
  function CheckpointOf(p: Position): Checkpoint {
    Checkpoint(Some(p.currentPage), Some(p.totalHarvested), Some(p.failedPages))
  }

  /**
   * What the first half of load_progress leaves, given the progress file and
   * the state before: each key's value or its default (1, 0, []); an absent or
   * unreadable file leaves the state as it was.
   */
  function Restore(file: Stored<Checkpoint>, before: Position): (p: Position)
    ensures !file.Present? ==> p == before
  {
    match file
    case Present(c) => Position(c.lastPage.GetOr(1), c.totalHarvested.GetOr(0), c.failedPages.GetOr([]))
    case _ => before
  }

  lemma RestoreSaved(p: Position, before: Position)
    ensures Restore(Present(CheckpointOf(p)), before) == p
  {
  }

  lemma RestoreDefaults(before: Position)
    ensures Restore(Present(Checkpoint(None, None, None)), before) == Position(1, 0, [])
  {
  }
}
