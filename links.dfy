/**
 * Choosing the spreadsheet link on the regulator's index page
 * (`descargar_planilla_cnv`). The page arrives as the anchors that carry an
 * href, in document order; `urljoin` is kept abstract.
 */
module Links {
  import opened Wrappers
  import opened Text

  /** The index page the script fetches; relative hrefs are resolved against it. */
  const IndexUrl: string := "https://www.cnv.gov.ar/SitioWeb/FondosComunesInversion/CuotaPartes"

  /** The two month labels a document link must mention, tried in this order. */
  const LatestMonth: string := "jun 2025"
  const PreviousMonth: string := "may 2025"

  /** An `<a href=...>` element: its visible text and its href attribute. */
  datatype Anchor = Anchor(text: string, href: string)

  /** Outcome of the scan: the download URL and the document date (the link text, later used to name the output), or the "no link" failure. */
  datatype Selection = NotFound | Selected(url: string, docDate: string)

  predicate IsDocumentLink(a: Anchor) {
    Contains(a.text, LatestMonth) || Contains(a.text, PreviousMonth)
  }

  /** The position of the first document link in document order, if any. */
  function FirstLink(anchors: seq<Anchor>): (k: Option<nat>)
    ensures k.Some? ==> k.value < |anchors| && IsDocumentLink(anchors[k.value])
    ensures k.Some? ==> forall j :: 0 <= j < k.value ==> !IsDocumentLink(anchors[j])
    ensures k.None? <==> forall j :: 0 <= j < |anchors| ==> !IsDocumentLink(anchors[j])
  {
    if anchors == [] then None
    else if IsDocumentLink(anchors[0]) then Some(0)
    else match FirstLink(anchors[1..])
      case None => None
      case Some(k) => Some(k + 1)
  }

  /** An href that starts with "http" is already absolute; any other is joined to the index URL. */
  function Resolve(href: string, urljoin: (string, string) -> string): (url: string)
    ensures "http" <= href ==> url == href
    ensures !("http" <= href) ==> url == urljoin(IndexUrl, href)
  {
    if "http" <= href then href else urljoin(IndexUrl, href)
  }

  /**
   * What the scan decides: the first document link, unless its href is the
   * empty string, which Python treats as false, so the scan reports "no link"
   * even though it has already stopped.
   */
  function Select(anchors: seq<Anchor>, urljoin: (string, string) -> string): (s: Selection)
    ensures s.Selected? <==> FirstLink(anchors).Some? && anchors[FirstLink(anchors).value].href != ""
  {
    match FirstLink(anchors)
    case None => NotFound
    case Some(k) =>
      if anchors[k].href == "" then NotFound
      else Selected(Resolve(anchors[k].href, urljoin), Strip(anchors[k].text))
  }

  /** The scan as the script runs it: a loop that stops at the first match. */
  method SelectLink(anchors: seq<Anchor>, urljoin: (string, string) -> string) returns (s: Selection)
    ensures s == Select(anchors, urljoin)
  {
    var chosen: Option<string> := None;
    var docDate := "";
    ghost var at := |anchors|;
    var i := 0;
    while i < |anchors|
      invariant 0 <= i <= |anchors|
      invariant chosen == None
      invariant forall j :: 0 <= j < i ==> !IsDocumentLink(anchors[j])
    {
      if IsDocumentLink(anchors[i]) {
        chosen := Some(anchors[i].href);
        docDate := Strip(anchors[i].text);
        at := i;
        break;
      }
      i := i + 1;
    }
    if chosen == None || chosen.value == "" {
      return NotFound;
    }
    assert FirstLink(anchors) == Some(at);
    var url;
    if !("http" <= chosen.value) {
      url := urljoin(IndexUrl, chosen.value);
    } else {
      url := chosen.value;
    }
    return Selected(url, docDate);
  }

  /**
   * The first document link in document order is the one taken, whatever
   * follows it: its href is used as it is when it starts with "http" and is
   * joined to the index URL otherwise, and its stripped text is the label.
   */
  lemma SelectFirst(anchors: seq<Anchor>, urljoin: (string, string) -> string, k: nat)
    requires k < |anchors| && IsDocumentLink(anchors[k]) && anchors[k].href != ""
    requires forall j :: 0 <= j < k ==> !IsDocumentLink(anchors[j])
    ensures Select(anchors, urljoin) == Selected(
      if "http" <= anchors[k].href then anchors[k].href else urljoin(IndexUrl, anchors[k].href),
      Strip(anchors[k].text))
  {
    assert FirstLink(anchors) == Some(k);
  }

  /** A page with no document link yields "no link". */
  lemma SelectNone(anchors: seq<Anchor>, urljoin: (string, string) -> string)
    requires forall j :: 0 <= j < |anchors| ==> !IsDocumentLink(anchors[j])
    ensures Select(anchors, urljoin) == NotFound
  {
  }

  /**
   * A first document link with an empty href yields "no link", even when a
   * later anchor is a document link with a usable href.
   */
  lemma SelectEmptyHref(before: seq<Anchor>, a: Anchor, after: seq<Anchor>, urljoin: (string, string) -> string)
    requires forall j :: 0 <= j < |before| ==> !IsDocumentLink(before[j])
    requires IsDocumentLink(a) && a.href == ""
    ensures Select(before + [a] + after, urljoin) == NotFound
  {
    var anchors := before + [a] + after;
    assert anchors[|before|] == a;
    assert forall j :: 0 <= j < |before| ==> anchors[j] == before[j];
    assert FirstLink(anchors) == Some(|before|);
  }

  /** Anchors after a document link never change the outcome. */
  lemma {:induction false} SelectIgnoresLater(page: seq<Anchor>, later: seq<Anchor>, urljoin: (string, string) -> string)
    requires FirstLink(page).Some?
    ensures Select(page + later, urljoin) == Select(page, urljoin)
  {
    FirstLinkPrefix(page, later);
    assert (page + later)[FirstLink(page).value] == page[FirstLink(page).value];
  }

  lemma {:induction false} FirstLinkPrefix(page: seq<Anchor>, later: seq<Anchor>)
    requires FirstLink(page).Some?
    ensures FirstLink(page + later) == FirstLink(page)
  {
    assert (page + later)[0] == page[0];
    if !IsDocumentLink(page[0]) {
      assert (page + later)[1..] == page[1..] + later;
      FirstLinkPrefix(page[1..], later);
    }
  }

  /**
   * Whatever is selected comes from the first document link: the URL is its
   * resolved href and the label its stripped text, which still names one of
   * the two months.
   */
  lemma SelectedOrigin(anchors: seq<Anchor>, urljoin: (string, string) -> string)
    requires Select(anchors, urljoin).Selected?
    ensures exists k ::
      && 0 <= k < |anchors| && IsDocumentLink(anchors[k]) && anchors[k].href != ""
      && (forall j :: 0 <= j < k ==> !IsDocumentLink(anchors[j]))
      && Select(anchors, urljoin).url == Resolve(anchors[k].href, urljoin)
      && Select(anchors, urljoin).docDate == Strip(anchors[k].text)
    ensures Contains(Select(anchors, urljoin).docDate, LatestMonth)
      || Contains(Select(anchors, urljoin).docDate, PreviousMonth)
  {
    var k := FirstLink(anchors).value;
    var text := anchors[k].text;
    if Contains(text, LatestMonth) {
      MonthSurvivesStrip(text, LatestMonth);
    } else {
      MonthSurvivesStrip(text, PreviousMonth);
    }
  }

  lemma MonthSurvivesStrip(text: string, month: string)
    requires month == LatestMonth || month == PreviousMonth
    requires Contains(text, month)
    ensures Contains(Strip(text), month)
  {
    ContainsIff(text, month);
    var i: nat :| OccursAt(text, month, i);
    StripKeepsOccurrence(text, month, i);
  }
}
