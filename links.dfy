/**
 * Turning the `href` of an anchor on a listing page into the canonical URL of
 * a property (production_harvester.py and selenium_harvester.py share the rule;
 * the latter also wants an absolute `http` address).
 */
module Links {
  import opened Options
  import opened Text

  /** The path segment that precedes a property's numeric id. */
  const Marker: string := "/property-for-sale/"
  const Scheme: string := "https://"
  const Host: string := "www.thinkspain.com"
  /** Canonical property URLs are this prefix followed by the id. */
  const CanonicalBase: string := Scheme + Host + Marker

  /** A canonical property URL: the base followed by a non-empty run of digits. */
  predicate IsCanonical(u: string) {
    |u| > |CanonicalBase| && u[..|CanonicalBase|] == CanonicalBase && AllDigits(u[|CanonicalBase|..])
  }

  /**
   * The id candidate of an href: the last piece of `href.split(Marker)`,
   * cut at the first `?` and then at the first `#`.
   */
  function IdSegment(href: string): (id: string)
    ensures IsPrefix(id, LastSplit(href, Marker))
    ensures '?' !in id && '#' !in id
    ensures var piece := LastSplit(href, Marker);
            |id| == |piece| || piece[|id|] == '?' || piece[|id|] == '#'
  {
    FirstSplit(FirstSplit(LastSplit(href, Marker), '?'), '#')
  }

  /** `p` is a prefix of `s`. */
  predicate IsPrefix(p: string, s: string) {
    |p| <= |s| && s[..|p|] == p
  }

  /**
   * The canonical URL an href yields in the production harvester
   * (production_harvester.py:335-339), or None when the href is skipped.
   */
  function Canonicalize(href: string): (r: Option<string>)
    ensures r.Some? <==> Contains(href, Marker) && IsDigitString(IdSegment(href))
    ensures r.Some? ==> IsCanonical(r.value) && r.value == CanonicalBase + IdSegment(href)
  {
    if Contains(href, Marker) then
      var id := IdSegment(href);
      if IsDigitString(id) then Some(CanonicalBase + id) else None
    else
      None
  }

  /**
   * The canonical URL an href yields in the test harvester
   * (selenium_harvester.py:131-138): the same rule, for absolute hrefs only.
   */
  function CanonicalizeAbsolute(href: string): (r: Option<string>)
    ensures r.Some? ==> StartsWith(href, "http") && r == Canonicalize(href)
    ensures StartsWith(href, "http") ==> r == Canonicalize(href)
  {
    if Contains(href, Marker) && StartsWith(href, "http") then
      var id := IdSegment(href);
      if IsDigitString(id) then Some(CanonicalBase + id) else None
    else
      None
  }

  /** No occurrence of the marker can begin inside the host part of a canonical URL. */
  lemma MarkerNotInHost(u: string, j: int)
    requires IsCanonical(u)
    requires 0 <= j < |CanonicalBase| - |Marker|
    ensures !OccursAt(u, Marker, j)
  {
    assert u[..|CanonicalBase|] == CanonicalBase;
    if j < |Scheme| {
      assert CanonicalBase[..|Scheme|] == Scheme;
      assert CanonicalBase[j] == Scheme[j];
      if j == 6 || j == 7 {
        assert CanonicalBase[j + 1] != 'p';
      } else {
        assert Scheme[j] != '/';
      }
    } else {
      assert CanonicalBase[|Scheme|..|Scheme| + |Host|] == Host;
      assert CanonicalBase[j] == Host[j - |Scheme|];
      assert Host[j - |Scheme|] != '/';
    }
    assert u[j] != Marker[0] || u[j + 1] != Marker[1];
    if j + |Marker| <= |u| {
      assert u[j..j + |Marker|][0] == u[j] && u[j..j + |Marker|][1] == u[j + 1];
    }
  }

  /** In a canonical URL the first occurrence of the marker is the one that ends the base. */
  lemma FindInCanonical(u: string)
    requires IsCanonical(u)
    ensures Find(u, Marker) == Some(|CanonicalBase| - |Marker|)
  {
    var k := |CanonicalBase| - |Marker|;
    assert u[k..k + |Marker|] == CanonicalBase[k..];
    assert OccursAt(u, Marker, k);
    forall j | 0 <= j < k
      ensures !OccursAt(u, Marker, j)
    {
      MarkerNotInHost(u, j);
    }
  }

  /** A run of digits holds no marker (the marker contains `/`), so split leaves it whole. */
  lemma LastSplitOfDigits(id: string)
    requires AllDigits(id)
    ensures LastSplit(id, Marker) == id
  {
    forall j | 0 <= j
      ensures !OccursAt(id, Marker, j)
    {
      if j + |Marker| <= |id| {
        assert IsDigit(id[j]);
        assert id[j..j + |Marker|][0] == id[j];
        assert Marker[0] == '/';
      }
    }
    assert !Contains(id, Marker);
  }

  /** The id segment of a canonical URL is its digits. */
  lemma IdSegmentOfCanonical(u: string)
    requires IsCanonical(u)
    ensures Contains(u, Marker)
    ensures LastSplit(u, Marker) == u[|CanonicalBase|..]
    ensures IdSegment(u) == u[|CanonicalBase|..]
  {
    var k := |CanonicalBase| - |Marker|;
    var id := u[|CanonicalBase|..];
    FindInCanonical(u);
    assert u[k + |Marker|..] == id;
    LastSplitOfDigits(id);
    assert LastSplit(u, Marker) == id;
    assert '?' !in id by {
      assert forall i :: 0 <= i < |id| ==> id[i] != '?';
    }
    assert '#' !in id by {
      assert forall i :: 0 <= i < |id| ==> id[i] != '#';
    }
  }

  /** Two canonical URLs with the same text after the marker are the same URL. */
  lemma CanonicalIdInjective(u: string, v: string)
    requires IsCanonical(u) && IsCanonical(v)
    requires LastSplit(u, Marker) == LastSplit(v, Marker)
    ensures u == v
  {
    IdSegmentOfCanonical(u);
    IdSegmentOfCanonical(v);
    assert u == u[..|CanonicalBase|] + u[|CanonicalBase|..];
    assert v == v[..|CanonicalBase|] + v[|CanonicalBase|..];
  }

  /** Canonical URLs are fixed points: canonicalising one gives it back. */
  lemma CanonicalFixedPoint(u: string)
    requires IsCanonical(u)
    ensures Canonicalize(u) == Some(u)
    ensures CanonicalizeAbsolute(u) == Some(u)
  {
    IdSegmentOfCanonical(u);
    assert u == CanonicalBase + u[|CanonicalBase|..];
    CanonicalIsAbsolute(u);
  }

  lemma CanonicalIsAbsolute(u: string)
    requires IsCanonical(u)
    ensures StartsWith(u, "http")
  {
    assert u[..4] == u[..|CanonicalBase|][..4];
    BaseIsHttp();
  }

  lemma BaseIsHttp()
    ensures CanonicalBase[..4] == "http"
  {
  }

  /** Which of the two canonicalisation rules a harvester applies. */
  datatype Rule = AnyHref | AbsoluteOnly

  function CanonicalizeBy(rule: Rule, href: string): Option<string> {
    match rule
    case AnyHref => Canonicalize(href)
    case AbsoluteOnly => CanonicalizeAbsolute(href)
  }

  /** The link an href contributes, as a set of zero or one URLs. */
  function LinkOf(rule: Rule, href: string): set<string> {
    var c := CanonicalizeBy(rule, href);
    if c.Some? then {c.value} else {}
  }

  /** The canonical links a list of hrefs contributes under `rule`. */
  function PageLinks(rule: Rule, hrefs: seq<string>): (r: set<string>)
    ensures forall u :: u in r ==> IsCanonical(u)
  {
    if hrefs == [] then {}
    else PageLinks(rule, hrefs[..|hrefs| - 1]) + LinkOf(rule, hrefs[|hrefs| - 1])
  }

  /** Reading one more href adds that href's link. */
  lemma PageLinksSnoc(rule: Rule, hrefs: seq<string>, i: nat)
    requires i < |hrefs|
    ensures PageLinks(rule, hrefs[..i + 1]) == PageLinks(rule, hrefs[..i]) + LinkOf(rule, hrefs[i])
  {
    assert hrefs[..i + 1][..i] == hrefs[..i];
  }

  /** Some href of the list canonicalises to `u`. */
  predicate SomeHrefYields(rule: Rule, hrefs: seq<string>, u: string) {
    exists i :: 0 <= i < |hrefs| && CanonicalizeBy(rule, hrefs[i]) == Some(u)
  }

  /** Every link of a page comes from some href on it. */
  lemma {:induction false} PageLinksSound(rule: Rule, hrefs: seq<string>, u: string)
    requires u in PageLinks(rule, hrefs)
    ensures SomeHrefYields(rule, hrefs, u)
  {
    var front, last := hrefs[..|hrefs| - 1], hrefs[|hrefs| - 1];
    if u in PageLinks(rule, front) {
      PageLinksSound(rule, front, u);
      var i :| 0 <= i < |front| && CanonicalizeBy(rule, front[i]) == Some(u);
      assert hrefs[i] == front[i];
    } else {
      assert CanonicalizeBy(rule, hrefs[|hrefs| - 1]) == Some(u);
    }
  }

  /** Every href that canonicalises contributes its link. */
  lemma {:induction false} PageLinksComplete(rule: Rule, hrefs: seq<string>, i: nat)
    requires i < |hrefs| && CanonicalizeBy(rule, hrefs[i]).Some?
    ensures CanonicalizeBy(rule, hrefs[i]).value in PageLinks(rule, hrefs)
  {
    if i < |hrefs| - 1 {
      var front := hrefs[..|hrefs| - 1];
      assert front[i] == hrefs[i];
      PageLinksComplete(rule, front, i);
    }
  }

  /** A URL is among a page's links exactly when some href on it canonicalises to that URL. */
  lemma PageLinksFromHrefs(rule: Rule, hrefs: seq<string>, u: string)
    ensures u in PageLinks(rule, hrefs) <==> SomeHrefYields(rule, hrefs, u)
  {
    if u in PageLinks(rule, hrefs) {
      PageLinksSound(rule, hrefs, u);
    }
    if SomeHrefYields(rule, hrefs, u) {
      var i :| 0 <= i < |hrefs| && CanonicalizeBy(rule, hrefs[i]) == Some(u);
      PageLinksComplete(rule, hrefs, i);
    }
  }

  /** The test harvester's links are among the production harvester's. */
  lemma {:induction false} AbsoluteLinksAmongAll(hrefs: seq<string>)
    ensures PageLinks(AbsoluteOnly, hrefs) <= PageLinks(AnyHref, hrefs)
  {
    if hrefs != [] {
      AbsoluteLinksAmongAll(hrefs[..|hrefs| - 1]);
    }
  }

  /** How much a set of links grows when a page's links are added: by the links it did not hold. */
  lemma GrowthCountsNew(known: set<string>, found: set<string>)
    ensures |known + found| - |known| == |found - known|
  {
    assert known + found == known + (found - known);
    assert known * (found - known) == {};
  }
}
