/**
 * selenium_harvester.py: the test-mode "Show More" harvester. It clicks up
 * to `max_clicks` times, harvesting after each click, stops early on a
 * failed click or on five clicks in a row without a new link, and writes the
 * links it found as rows of a CSV file.
 */
module Selenium {
  import opened Options
  import opened Scripts
  import opened Text
  import opened StringOrder
  import opened Links
  import opened Browser

  /** The default of run_test's `max_clicks` (TEST_CLICKS). */
  const TestClicks: int := 200
  /** Clicks in a row without a new link after which run_test stops. */
  const NoNewLimit: nat := 5

  /** How many entries at the end of `counts` are 0: run_test's `consecutive_no_new`. */
  function ZeroRun(counts: seq<int>): (r: nat)
    ensures r <= |counts|
    ensures forall j :: |counts| - r <= j < |counts| ==> counts[j] == 0
    ensures r < |counts| ==> counts[|counts| - 1 - r] != 0
  {
    if counts == [] || counts[|counts| - 1] != 0 then 0
    else ZeroRun(counts[..|counts| - 1]) + 1
  }

  /** One row of the CSV file. */
  datatype Row = Row(propertyId: string, url: string)

  /** The rows save_results builds from a sorted list of URLs, one per URL and in order. */
  function Rows(urls: seq<string>): (rows: seq<Row>)
    ensures |rows| == |urls|
    ensures forall j :: 0 <= j < |urls| ==> rows[j].url == urls[j]
  {
    seq(|urls|, j requires 0 <= j < |urls| => Row(LastSplit(urls[j], Marker), urls[j]))
  }

  /**
   * The id of each row is a tail of its URL free of the marker: the whole
   * URL when it has no marker, and the digits of a canonical URL.
   */
  lemma RowIds(urls: seq<string>)
    ensures forall j :: 0 <= j < |urls| ==>
      IsSuffix(Rows(urls)[j].propertyId, urls[j]) && !Contains(Rows(urls)[j].propertyId, Marker)
    ensures forall j :: 0 <= j < |urls| && !Contains(urls[j], Marker) ==> Rows(urls)[j].propertyId == urls[j]
    ensures forall j :: 0 <= j < |urls| && IsCanonical(urls[j]) ==>
      Rows(urls)[j].propertyId == urls[j][|CanonicalBase|..] && IsDigitString(Rows(urls)[j].propertyId)
  {
    forall j | 0 <= j < |urls| && IsCanonical(urls[j])
      ensures Rows(urls)[j].propertyId == urls[j][|CanonicalBase|..]
    {
      IdSegmentOfCanonical(urls[j]);
    }
  }

  /** The distinct property ids of a list of rows. */
  function IdSet(rows: seq<Row>): (ids: set<string>)
    ensures forall j :: 0 <= j < |rows| ==> rows[j].propertyId in ids
    ensures |ids| <= |rows|
  {
    if rows == [] then {} else IdSet(rows[..|rows| - 1]) + {rows[|rows| - 1].propertyId}
  }

  /** Rows whose ids are pairwise distinct have as many ids as rows. */
  lemma {:induction false} IdSetOfDistinct(rows: seq<Row>)
    requires forall i, j :: 0 <= i < j < |rows| ==> rows[i].propertyId != rows[j].propertyId
    ensures |IdSet(rows)| == |rows|
  {
    if rows != [] {
      var front := rows[..|rows| - 1];
      IdSetOfDistinct(front);
      if rows[|rows| - 1].propertyId in IdSet(front) {
        IdSetHasOnlyRowIds(front, rows[|rows| - 1].propertyId);
      }
    }
  }

  lemma {:induction false} IdSetHasOnlyRowIds(rows: seq<Row>, id: string)
    requires id in IdSet(rows)
    ensures exists j :: 0 <= j < |rows| && rows[j].propertyId == id
  {
    var front := rows[..|rows| - 1];
    if id != rows[|rows| - 1].propertyId {
      IdSetHasOnlyRowIds(front, id);
      var j :| 0 <= j < |front| && front[j].propertyId == id;
      assert rows[j] == front[j];
    }
  }

  /** Distinct canonical URLs give rows with distinct ids. */
  lemma RowIdsDistinct(urls: seq<string>)
    requires forall j :: 0 <= j < |urls| ==> IsCanonical(urls[j])
    requires forall i, j :: 0 <= i < j < |urls| ==> urls[i] != urls[j]
    ensures forall i, j :: 0 <= i < j < |urls| ==> Rows(urls)[i].propertyId != Rows(urls)[j].propertyId
  {
    var rows := Rows(urls);
    forall i, j | 0 <= i < j < |urls|
      ensures rows[i].propertyId != rows[j].propertyId
    {
      if rows[i].propertyId == rows[j].propertyId {
        CanonicalIdInjective(urls[i], urls[j]);
      }
    }
  }

  /** The rows of a set of canonical links carry as many distinct ids as there are links. */
  lemma RowsOfCanonical(links: set<string>)
    requires forall u :: u in links ==> IsCanonical(u)
    ensures |IdSet(Rows(Sorted(links)))| == |links|
  {
    var urls := Sorted(links);
    AscendingDistinct(urls);
    forall j | 0 <= j < |urls|
      ensures IsCanonical(urls[j])
    {
      assert urls[j] in Elements(urls);
    }
    RowIdsDistinct(urls);
    IdSetOfDistinct(Rows(urls));
  }

  /** Appending a count extends the trailing run of zeros or resets it. */
  lemma ZeroRunSnoc(counts: seq<int>, x: int)
    ensures ZeroRun(counts + [x]) == if x == 0 then ZeroRun(counts) + 1 else 0
  {
    assert (counts + [x])[..|counts|] == counts;
  }

  /** No proper prefix of `counts` ends in `limit` zeros: run_test did not stop earlier (RanOnAt). */
  predicate RanOn(counts: seq<int>, limit: nat)
    decreases |counts|
  {
    |counts| > 0 ==>
      var n := |counts| - 1;
      RanOn(counts[..n], limit) && ZeroRun(counts[..n]) < limit
  }

  /** Each proper prefix of a run that went on ends in fewer than `limit` zeros. */
  lemma {:induction false} RanOnAt(counts: seq<int>, limit: nat, k: nat)
    requires RanOn(counts, limit) && k < |counts|
    ensures ZeroRun(counts[..k]) < limit
    decreases |counts|
  {
    var n := |counts| - 1;
    if k < n {
      RanOnAt(counts[..n], limit, k);
      assert counts[..n][..k] == counts[..k];
    }
  }

  lemma RanOnSnoc(counts: seq<int>, x: int, limit: nat)
    requires RanOn(counts, limit) && ZeroRun(counts) < limit
    ensures RanOn(counts + [x], limit)
  {
    assert (counts + [x])[..|counts|] == counts;
  }

  /** The links one read of the anchors contributes: none when the read raised. */
  function ReadLinks(read: Option<seq<string>>): set<string> {
    if read.Some? then PageLinks(AbsoluteOnly, read.value) else {}
  }

  /**
   * One call of harvest_property_links that finds the links `found`: it
   * takes the links from `before` to `after` and returns `count`.
   */
  predicate HarvestStep(found: set<string>, before: set<string>, after: set<string>, count: int) {
    after == before + found && count == |found - before|
  }

  /** A second harvest of the same links adds nothing and returns 0. */
  lemma HarvestStepTwice(found: set<string>, before: set<string>, after: set<string>, count: int,
                         after2: set<string>, count2: int)
    requires HarvestStep(found, before, after, count) && HarvestStep(found, after, after2, count2)
    ensures after2 == after && count2 == 0
  {
    assert found - after == {};
  }

  /**
   * `trail` holds the links before each of `|counts|` calls of
   * harvest_property_links and after the last: call `j` finds `finds[j]`
   * and returns `counts[j]` (HarvestTrailAt).
   */
  predicate HarvestTrail(finds: seq<set<string>>, trail: seq<set<string>>, counts: seq<int>)
    decreases |counts|
  {
    && |finds| == |counts| && |trail| == |counts| + 1
    && (|counts| > 0 ==>
          var n := |counts| - 1;
          HarvestTrail(finds[..n], trail[..n + 1], counts[..n]) && HarvestStep(finds[n], trail[n], trail[n + 1], counts[n]))
  }

  /** `finds[j]` is what the `j`-th read of the anchor script holds (FindsOfAt). */
  predicate FindsOf(anchors: seq<Option<seq<string>>>, finds: seq<set<string>>)
    decreases |finds|
  {
    |finds| > 0 ==>
      var n := |finds| - 1;
      FindsOf(anchors, finds[..n]) && finds[n] == ReadLinks(Next(DropN(anchors, n), Some([])))
  }

  /** The first `n` attempts of the click script all clicked the button (ClickedFirstAt). */
  predicate ClickedFirst(attempts: seq<ClickAttempt>, n: nat) {
    n > 0 ==> ClickedFirst(attempts, n - 1) && Next(DropN(attempts, n - 1), NoButton) == Clicked
  }

  /**
   * The history of `|counts|` rounds of run_test's loop that all clicked,
   * on the click script `attempts` and the anchor script `anchors`,
   * starting from the links `links0`: each click was followed by one
   * harvest of the next read, and the counts never reached five zeros in a
   * row before the last one.
   */
  ghost predicate History(attempts: seq<ClickAttempt>, anchors: seq<Option<seq<string>>>, links0: set<string>,
                          counts: seq<int>, finds: seq<set<string>>, trail: seq<set<string>>)
  {
    && RanOn(counts, NoNewLimit)
    && FindsOf(anchors, finds) && HarvestTrail(finds, trail, counts)
    && trail[0] == links0
    && ClickedFirst(attempts, |counts|)
  }

  /** Each call on a trail is one harvest step. */
  lemma {:induction false} HarvestTrailAt(finds: seq<set<string>>, trail: seq<set<string>>, counts: seq<int>, j: nat)
    requires HarvestTrail(finds, trail, counts) && j < |counts|
    ensures HarvestStep(finds[j], trail[j], trail[j + 1], counts[j])
    decreases |counts|
  {
    var n := |counts| - 1;
    if j < n {
      HarvestTrailAt(finds[..n], trail[..n + 1], counts[..n], j);
    }
  }

  /** Each find is the links of the matching read. */
  lemma {:induction false} FindsOfAt(anchors: seq<Option<seq<string>>>, finds: seq<set<string>>, j: nat)
    requires FindsOf(anchors, finds) && j < |finds|
    ensures finds[j] == ReadLinks(Next(DropN(anchors, j), Some([])))
    decreases |finds|
  {
    var n := |finds| - 1;
    if j < n {
      FindsOfAt(anchors, finds[..n], j);
    }
  }

  /** Each of the first `n` attempts clicked. */
  lemma {:induction false} ClickedFirstAt(attempts: seq<ClickAttempt>, n: nat, j: nat)
    requires ClickedFirst(attempts, n) && j < n
    ensures Next(DropN(attempts, j), NoButton) == Clicked
  {
    if j < n - 1 {
      ClickedFirstAt(attempts, n - 1, j);
    }
  }

  /** One more harvest extends the trail. */
  lemma HarvestTrailSnoc(finds: seq<set<string>>, trail: seq<set<string>>, counts: seq<int>,
                         found: set<string>, after: set<string>, count: int)
    requires HarvestTrail(finds, trail, counts)
    requires HarvestStep(found, trail[|counts|], after, count)
    ensures HarvestTrail(finds + [found], trail + [after], counts + [count])
  {
    var n := |counts|;
    assert (finds + [found])[..n] == finds && (trail + [after])[..n + 1] == trail && (counts + [count])[..n] == counts;
  }

  /** A first harvest followed by a trail is a trail. */
  lemma {:induction false} HarvestTrailFirst(found: set<string>, before: set<string>, count: int,
                                             finds: seq<set<string>>, trail: seq<set<string>>, counts: seq<int>)
    requires HarvestTrail(finds, trail, counts)
    requires HarvestStep(found, before, trail[0], count)
    ensures HarvestTrail([found] + finds, [before] + trail, [count] + counts)
    decreases |counts|
  {
    var f, t, c := [found] + finds, [before] + trail, [count] + counts;
    var n := |counts|;
    if n == 0 {
      assert f[..0] == [] && t[..1] == [before] && c[..0] == [];
    } else {
      HarvestTrailFirst(found, before, count, finds[..n - 1], trail[..n], counts[..n - 1]);
      assert f[..n] == [found] + finds[..n - 1] && t[..n + 1] == [before] + trail[..n] && c[..n] == [count] + counts[..n - 1];
    }
  }

  /** The finds of one more read of the script. */
  lemma FindsOfSnoc(anchors: seq<Option<seq<string>>>, finds: seq<set<string>>)
    requires FindsOf(anchors, finds)
    ensures FindsOf(anchors, finds + [ReadLinks(Next(DropN(anchors, |finds|), Some([])))])
  {
    assert (finds + [ReadLinks(Next(DropN(anchors, |finds|), Some([])))])[..|finds|] == finds;
  }

  /** The finds of a first read followed by the finds of the rest of the script. */
  lemma {:induction false} FindsOfFirst(anchors: seq<Option<seq<string>>>, finds: seq<set<string>>)
    requires FindsOf(Drop(anchors), finds)
    ensures FindsOf(anchors, [ReadLinks(Next(anchors, Some([])))] + finds)
    decreases |finds|
  {
    var x := ReadLinks(Next(anchors, Some([])));
    var n := |finds|;
    if n == 0 {
      assert ([x] + finds)[..0] == [] && DropN(anchors, 0) == anchors;
    } else {
      FindsOfFirst(anchors, finds[..n - 1]);
      DropNDrop(anchors, n - 1);
      assert ([x] + finds)[..n] == [x] + finds[..n - 1];
    }
  }

  /**
   * A harvest, a trail on the rest of the script and one more harvest make
   * a trail on the whole script.
   */
  lemma HarvestTrailAround(anchors: seq<Option<seq<string>>>, before: set<string>, first: int,
                           finds: seq<set<string>>, trail: seq<set<string>>, counts: seq<int>,
                           after: set<string>, last: int)
    requires FindsOf(Drop(anchors), finds) && HarvestTrail(finds, trail, counts)
    requires HarvestStep(ReadLinks(Next(anchors, Some([]))), before, trail[0], first)
    requires HarvestStep(ReadLinks(Next(DropN(anchors, |counts| + 1), Some([]))), trail[|counts|], after, last)
    ensures var f := [ReadLinks(Next(anchors, Some([])))] + finds + [ReadLinks(Next(DropN(anchors, |counts| + 1), Some([])))];
      FindsOf(anchors, f) && HarvestTrail(f, [before] + trail + [after], [first] + counts + [last])
  {
    FindsOfFirst(anchors, finds);
    HarvestTrailFirst(ReadLinks(Next(anchors, Some([]))), before, first, finds, trail, counts);
    FindsOfSnoc(anchors, [ReadLinks(Next(anchors, Some([])))] + finds);
    HarvestTrailSnoc([ReadLinks(Next(anchors, Some([])))] + finds, [before] + trail, [first] + counts,
                     ReadLinks(Next(DropN(anchors, |counts| + 1), Some([]))), after, last);
  }

  /** The total of a list of counts. */
  function Sum(counts: seq<int>): int {
    if counts == [] then 0 else Sum(counts[..|counts| - 1]) + counts[|counts| - 1]
  }

  /**
   * Harvesting only adds links, and the counts add up to the links added:
   * each call counts exactly the links that were new to it.
   */
  lemma {:induction false} HarvestTrailCounts(finds: seq<set<string>>, trail: seq<set<string>>, counts: seq<int>)
    requires HarvestTrail(finds, trail, counts)
    ensures trail[0] <= trail[|counts|]
    ensures Sum(counts) == |trail[|counts|]| - |trail[0]|
    decreases |counts|
  {
    var n := |counts|;
    if n > 0 {
      var f, t, c := finds[..n - 1], trail[..n], counts[..n - 1];
      HarvestTrailCounts(f, t, c);
      assert HarvestStep(finds[n - 1], trail[n - 1], trail[n], counts[n - 1]);
      GrowthCountsNew(trail[n - 1], finds[n - 1]);
    }
  }

  /** Harvesting only adds links. */
  lemma {:induction false} HarvestTrailGrows(finds: seq<set<string>>, trail: seq<set<string>>, counts: seq<int>)
    requires HarvestTrail(finds, trail, counts)
    ensures trail[0] <= trail[|counts|]
    decreases |counts|
  {
    var n := |counts|;
    if n > 0 {
      HarvestTrailGrows(finds[..n - 1], trail[..n], counts[..n - 1]);
    }
  }

  /**
   * run_test's harvests: a first harvest, the rounds of the loop on the rest
   * of the anchor script and a last harvest make one trail on the whole
   * script, along which the links only grow.
   */
  lemma CollectedHistory(attempts: seq<ClickAttempt>, anchors: seq<Option<seq<string>>>, before: set<string>,
                         first: int, links1: set<string>, newCounts: seq<int>, finds: seq<set<string>>,
                         trail: seq<set<string>>, after: set<string>, last: int)
    requires History(attempts, Drop(anchors), links1, newCounts, finds, trail)
    requires HarvestStep(ReadLinks(Next(anchors, Some([]))), before, links1, first)
    requires HarvestStep(ReadLinks(Next(DropN(anchors, |newCounts| + 1), Some([]))), trail[|newCounts|], after, last)
    ensures RanOn(newCounts, NoNewLimit) && ClickedFirst(attempts, |newCounts|)
    ensures var counts := [first] + newCounts + [last];
      var f := [ReadLinks(Next(anchors, Some([])))] + finds + [ReadLinks(Next(DropN(anchors, |newCounts| + 1), Some([])))];
      var t := [before] + trail + [after];
      && |counts| == |newCounts| + 2 && newCounts == counts[1..|newCounts| + 1]
      && FindsOf(anchors, f) && HarvestTrail(f, t, counts)
      && t[0] == before && t[|counts|] == after && before <= after
  {
    HarvestTrailAround(anchors, before, first, finds, trail, newCounts, after, last);
    var counts := [first] + newCounts + [last];
    var f := [ReadLinks(Next(anchors, Some([])))] + finds + [ReadLinks(Next(DropN(anchors, |newCounts| + 1), Some([])))];
    var t := [before] + trail + [after];
    HarvestTrailGrows(f, t, counts);
    assert newCounts == counts[1..|newCounts| + 1];
  }

  /** The loop of save_results that builds one row per URL, in order. */
  method BuildRows(urls: seq<string>) returns (data: seq<Row>)
    ensures data == Rows(urls)
  {
    data := [];
    for k := 0 to |urls|
      invariant |data| == k
      invariant forall j :: 0 <= j < k ==> data[j] == Row(LastSplit(urls[j], Marker), urls[j])
    {
      var propertyId := LastSplit(urls[k], Marker);
      data := data + [Row(propertyId, urls[k])];
    }
    assert forall j :: 0 <= j < |urls| ==> data[j] == Rows(urls)[j];
  }

  /** The CSV file (pandas is not modelled): None until written. */
  class Sink {
    var csv: Option<seq<Row>>

    constructor (csv: Option<seq<Row>>)
      ensures this.csv == csv
    {
      this.csv := csv;
    }
  }

  /** Why run_test's loop ended. */
  datatype TestEnd = ClicksDone | ClickFailed | NoNewLinks

  class PropertyHarvester {
    var propertyLinks: set<string>
    var clicksPerformed: int

    /** Only canonical links are ever added. */
    ghost predicate Valid()
      reads this
    {
      forall u :: u in propertyLinks ==> IsCanonical(u)
    }

    constructor ()
      ensures propertyLinks == {} && clicksPerformed == 0 && Valid()
    {
      propertyLinks := {};
      clicksPerformed := 0;
    }

    /** click_show_more: a single attempt; any driver error is a failed click. */
    method ClickShowMore(page: Page) returns (ok: bool)
      modifies this`clicksPerformed, page
      ensures ok <==> Next(old(page.attempts), NoButton) == Clicked
      ensures page.attempts == Drop(old(page.attempts)) && page.anchors == old(page.anchors)
      ensures clicksPerformed == old(clicksPerformed) + (if ok then 1 else 0)
      ensures page.position == old(page.position) + (if ok then 1 else 0)
    {
      var a := page.TryClick();
      if a == Clicked {
        clicksPerformed := clicksPerformed + 1;
        return true;
      }
      return false;
    }

    /** The loop of harvest_property_links: each absolute href's canonical link. */
    method AddLinks(hrefs: seq<string>)
      modifies this`propertyLinks
      ensures propertyLinks == old(propertyLinks) + PageLinks(AbsoluteOnly, hrefs)
    {
      for i := 0 to |hrefs|
        invariant propertyLinks == old(propertyLinks) + PageLinks(AbsoluteOnly, hrefs[..i])
      {
        PageLinksSnoc(AbsoluteOnly, hrefs, i);
        var link := CanonicalizeBy(AbsoluteOnly, hrefs[i]);
        if link.Some? {
          propertyLinks := propertyLinks + {link.value};
        }
      }
      assert hrefs[..|hrefs|] == hrefs;
    }

    /** harvest_property_links: add the page's links and count the new ones; a raising read counts 0. */
    method HarvestPropertyLinks(page: Page) returns (newCount: int)
      modifies this`propertyLinks, page
      ensures var found := ReadLinks(Next(old(page.anchors), Some([])));
        propertyLinks == old(propertyLinks) + found && newCount == |found - old(propertyLinks)|
      ensures HarvestStep(ReadLinks(Next(old(page.anchors), Some([]))), old(propertyLinks), propertyLinks, newCount)
      ensures newCount == |propertyLinks| - |old(propertyLinks)|
      ensures old(Valid()) ==> Valid()
      ensures page.anchors == Drop(old(page.anchors))
      ensures page.attempts == old(page.attempts) && page.position == old(page.position)
    {
      var read := page.ReadHrefs();
      if read.None? {
        return 0;
      }
      var beforeCount := |propertyLinks|;
      AddLinks(read.value);
      GrowthCountsNew(old(propertyLinks), PageLinks(AbsoluteOnly, read.value));
      newCount := |propertyLinks| - beforeCount;
    }

    /**
     * save_results: nothing when no link was found; otherwise the rows of the
     * sorted links, and the duplicate count it reports.
     */
    method SaveResults(sink: Sink) returns (duplicates: int)
      modifies sink
      ensures propertyLinks == {} ==> sink.csv == old(sink.csv) && duplicates == 0
      ensures propertyLinks != {} ==> sink.csv == Some(Rows(Sorted(propertyLinks)))
      ensures propertyLinks != {} ==> duplicates == |Rows(Sorted(propertyLinks))| - |IdSet(Rows(Sorted(propertyLinks)))|
      ensures Valid() ==> duplicates == 0
      ensures propertyLinks == old(propertyLinks)
    {
      if propertyLinks == {} {
        return 0;
      }
      var linksList := Sorted(propertyLinks);
      var data := BuildRows(linksList);
      sink.csv := Some(data);
      duplicates := |data| - |IdSet(data)|;
      if Valid() {
        RowsOfCanonical(propertyLinks);
      }
    }

    /** One round of run_test's loop: click, and harvest when the click went through. */
    method ClickAndHarvest(page: Page) returns (clicked: bool, newLinks: int)
      modifies this`propertyLinks, this`clicksPerformed, page
      ensures clicked <==> Next(old(page.attempts), NoButton) == Clicked
      ensures page.attempts == Drop(old(page.attempts))
      ensures clicksPerformed == old(clicksPerformed) + (if clicked then 1 else 0)
      ensures page.position == old(page.position) + (if clicked then 1 else 0)
      ensures !clicked ==> propertyLinks == old(propertyLinks) && page.anchors == old(page.anchors)
      ensures clicked ==> page.anchors == Drop(old(page.anchors))
      ensures clicked ==> HarvestStep(ReadLinks(Next(old(page.anchors), Some([]))), old(propertyLinks), propertyLinks, newLinks)
      ensures old(Valid()) ==> Valid()
    {
      clicked := ClickShowMore(page);
      newLinks := 0;
      if clicked {
        newLinks := HarvestPropertyLinks(page);
      }
    }

    /**
     * The state of run_test's loop after |counts| rounds that all clicked,
     * read from the scripts `a0` and `n0`, the links `links0`, the click
     * count `clicks0` and the position `pos0` it started on.
     */
    ghost predicate Rounds(page: Page, a0: seq<ClickAttempt>, n0: seq<Option<seq<string>>>,
                           links0: set<string>, clicks0: int, pos0: int,
                           counts: seq<int>, trail: seq<set<string>>)
      reads this, page
    {
      && Valid()
      && clicksPerformed == clicks0 + |counts| && page.position == pos0 + |counts|
      && |trail| == |counts| + 1 && trail[|counts|] == propertyLinks
      && page.anchors == DropN(n0, |counts|)
    }

    /**
     * The body of run_test's loop as its n-th round: click, harvest when the
     * click went through and count the harvests in a row that found nothing
     * new. The histories it returns are those of n + 1 rounds, read from the
     * scripts the loop started on.
     */
    method ClickRound(page: Page, ghost a0: seq<ClickAttempt>, ghost n0: seq<Option<seq<string>>>,
                      ghost links0: set<string>, ghost clicks0: int, ghost pos0: int,
                      ghost counts: seq<int>, ghost finds: seq<set<string>>, ghost trail: seq<set<string>>,
                      consecutiveNoNew: int)
      returns (clicked: bool, newLinks: int, noNewAfter: int,
               ghost counts': seq<int>, ghost finds': seq<set<string>>, ghost trail': seq<set<string>>)
      modifies this`propertyLinks, this`clicksPerformed, page
      requires Rounds(page, a0, n0, links0, clicks0, pos0, counts, trail)
      requires History(a0, n0, links0, counts, finds, trail)
      requires page.attempts == DropN(a0, |counts|)
      requires consecutiveNoNew == ZeroRun(counts) < NoNewLimit
      ensures clicked <==> Next(DropN(a0, |counts|), NoButton) == Clicked
      ensures page.attempts == DropN(a0, |counts| + 1)
      ensures counts' == if clicked then counts + [newLinks] else counts
      ensures clicked ==> noNewAfter == ZeroRun(counts')
      ensures Rounds(page, a0, n0, links0, clicks0, pos0, counts', trail')
      ensures History(a0, n0, links0, counts', finds', trail')
    {
      DropDropN(a0, |counts|);
      DropDropN(n0, |counts|);
      var found := ReadLinks(Next(page.anchors, Some([])));
      clicked, newLinks := ClickAndHarvest(page);
      noNewAfter := consecutiveNoNew;
      counts', finds', trail' := counts, finds, trail;
      if clicked {
        FindsOfSnoc(n0, finds);
        HarvestTrailSnoc(finds, trail, counts, found, propertyLinks, newLinks);
        ZeroRunSnoc(counts, newLinks);
        RanOnSnoc(counts, newLinks, NoNewLimit);
        counts', finds', trail' := counts + [newLinks], finds + [found], trail + [propertyLinks];
        if newLinks == 0 {
          noNewAfter := consecutiveNoNew + 1;
        } else {
          noNewAfter := 0;
        }
      }
    }

    /**
     * The loop of run_test: up to maxClicks times, click and harvest,
     * stopping at a failed click or at the fifth click in a row that found
     * nothing new. `attempts` counts the clicks tried, `newCounts` what each
     * successful click's harvest returned, `finds` what each of those
     * harvests read and `trail` the links before each harvest and after the
     * last.
     */
    method ClickLoop(page: Page, maxClicks: int)
      returns (end: TestEnd, ghost attempts: nat, ghost newCounts: seq<int>,
               ghost finds: seq<set<string>>, ghost trail: seq<set<string>>)
      modifies this`propertyLinks, this`clicksPerformed, page
      requires Valid()
      ensures Valid()
      ensures clicksPerformed == old(clicksPerformed) + |newCounts|
      ensures page.position == old(page.position) + |newCounts|
      ensures History(old(page.attempts), old(page.anchors), old(propertyLinks), newCounts, finds, trail)
      ensures trail[|newCounts|] == propertyLinks
      ensures page.anchors == DropN(old(page.anchors), |newCounts|)
      ensures attempts <= if maxClicks < 0 then 0 else maxClicks
      ensures end == ClicksDone ==> attempts == |newCounts| && attempts == (if maxClicks < 0 then 0 else maxClicks)
      ensures end == ClickFailed ==> attempts == |newCounts| + 1
      ensures end == NoNewLinks ==> attempts == |newCounts|
      ensures end == NoNewLinks <==> ZeroRun(newCounts) >= NoNewLimit
      ensures page.attempts == DropN(old(page.attempts), attempts)
      ensures end == ClickFailed ==> Next(DropN(old(page.attempts), |newCounts|), NoButton) != Clicked
    {
      var consecutiveNoNew := 0;
      end := ClicksDone;
      attempts, newCounts, finds, trail := 0, [], [], [propertyLinks];
      var i := 0;
      ghost var a0, n0, links0, clicks0, pos0 := page.attempts, page.anchors, propertyLinks, clicksPerformed, page.position;
      while i < maxClicks
        invariant attempts == i == |newCounts| && i <= (if maxClicks < 0 then 0 else maxClicks)
        invariant end == ClicksDone
        invariant consecutiveNoNew == ZeroRun(newCounts) < NoNewLimit
        invariant Rounds(page, a0, n0, links0, clicks0, pos0, newCounts, trail)
        invariant History(a0, n0, links0, newCounts, finds, trail)
        invariant page.attempts == DropN(a0, i)
      {
        var clicked, newLinks;
        clicked, newLinks, consecutiveNoNew, newCounts, finds, trail :=
          ClickRound(page, a0, n0, links0, clicks0, pos0, newCounts, finds, trail, consecutiveNoNew);
        attempts := attempts + 1;
        if !clicked {
          end := ClickFailed;
          break;
        }
        if consecutiveNoNew >= NoNewLimit {
          end := NoNewLinks;
          break;
        }
        i := i + 1;
      }
    }

    /**
     * run_test up to save_results: harvest, run the click loop and harvest
     * once more. `counts` is what every harvest returned, the loop's between
     * the first and the last, `finds` what each read and `trail` the links
     * around them.
     */
    method Collect(page: Page, maxClicks: int)
      returns (end: TestEnd, ghost attempts: nat, ghost newCounts: seq<int>,
               ghost counts: seq<int>, ghost finds: seq<set<string>>, ghost trail: seq<set<string>>)
      modifies this`propertyLinks, this`clicksPerformed, page
      requires Valid()
      ensures Valid() && old(propertyLinks) <= propertyLinks
      ensures attempts <= if maxClicks < 0 then 0 else maxClicks
      ensures end == ClicksDone ==> attempts == |newCounts| && attempts == (if maxClicks < 0 then 0 else maxClicks)
      ensures end == ClickFailed ==> attempts == |newCounts| + 1
      ensures end == NoNewLinks ==> attempts == |newCounts|
      ensures clicksPerformed == old(clicksPerformed) + |newCounts|
      ensures page.position == old(page.position) + |newCounts|
      ensures end == NoNewLinks <==> ZeroRun(newCounts) >= NoNewLimit
      ensures RanOn(newCounts, NoNewLimit)
      ensures |counts| == |newCounts| + 2 && newCounts == counts[1..|newCounts| + 1]
      ensures FindsOf(old(page.anchors), finds) && HarvestTrail(finds, trail, counts)
      ensures trail[0] == old(propertyLinks) && trail[|counts|] == propertyLinks
      ensures page.anchors == DropN(old(page.anchors), |counts|)
      ensures page.attempts == DropN(old(page.attempts), attempts)
      ensures ClickedFirst(old(page.attempts), |newCounts|)
      ensures end == ClickFailed ==> Next(DropN(old(page.attempts), |newCounts|), NoButton) != Clicked
    {
      ghost var links0, anchors0 := propertyLinks, page.anchors;
      var first := HarvestPropertyLinks(page);
      ghost var links1 := propertyLinks;
      ghost var loopFinds, loopTrail;
      end, attempts, newCounts, loopFinds, loopTrail := ClickLoop(page, maxClicks);
      DropNDrop(anchors0, |newCounts|);
      var last := HarvestPropertyLinks(page);
      CollectedHistory(old(page.attempts), anchors0, links0, first, links1, newCounts, loopFinds, loopTrail, propertyLinks, last);
      DropDropN(anchors0, |newCounts| + 1);
      counts := [first] + newCounts + [last];
      finds := [ReadLinks(Next(anchors0, Some([])))] + loopFinds + [ReadLinks(Next(DropN(anchors0, |newCounts| + 1), Some([])))];
      trail := [links0] + loopTrail + [propertyLinks];
    }

    /** run_test: collect the links, then save the results. */
    method RunTest(page: Page, sink: Sink, maxClicks: int)
      returns (end: TestEnd, ghost attempts: nat, ghost newCounts: seq<int>,
               ghost counts: seq<int>, ghost finds: seq<set<string>>, ghost trail: seq<set<string>>)
      modifies this, page, sink
      requires Valid()
      ensures Valid() && old(propertyLinks) <= propertyLinks
      ensures attempts <= if maxClicks < 0 then 0 else maxClicks
      ensures end == ClicksDone ==> attempts == |newCounts| && attempts == (if maxClicks < 0 then 0 else maxClicks)
      ensures end == ClickFailed ==> attempts == |newCounts| + 1
      ensures end == NoNewLinks ==> attempts == |newCounts|
      ensures clicksPerformed == old(clicksPerformed) + |newCounts|
      ensures page.position == old(page.position) + |newCounts|
      ensures end == NoNewLinks <==> ZeroRun(newCounts) >= NoNewLimit
      ensures RanOn(newCounts, NoNewLimit)
      ensures |counts| == |newCounts| + 2 && newCounts == counts[1..|newCounts| + 1]
      ensures FindsOf(old(page.anchors), finds) && HarvestTrail(finds, trail, counts)
      ensures trail[0] == old(propertyLinks) && trail[|counts|] == propertyLinks
      ensures page.anchors == DropN(old(page.anchors), |counts|)
      ensures page.attempts == DropN(old(page.attempts), attempts)
      ensures ClickedFirst(old(page.attempts), |newCounts|)
      ensures end == ClickFailed ==> Next(DropN(old(page.attempts), |newCounts|), NoButton) != Clicked
      ensures propertyLinks != {} ==> sink.csv == Some(Rows(Sorted(propertyLinks)))
      ensures propertyLinks == {} ==> sink.csv == old(sink.csv)
    {
      end, attempts, newCounts, counts, finds, trail := Collect(page, maxClicks);
      var _ := SaveResults(sink);
    }
  }
}
