/** Page navigation of the PDF slide player: the current page, the page
    count once the document has loaded, and the effect that resets the page
    when the document URL changes. Zoom and full screen are not modelled. */
module PdfPager {
  import opened Wrappers

  /** `numPages` is `None` until the document reports its page count. */
  datatype Pager = Pager(url: string, numPages: Option<nat>, page: int)

  /** Events the player reacts to. */
  datatype Event = PrevClicked | NextClicked | UrlChanged(newUrl: string) | Loaded(n: nat)

  /** State on mount: no page count yet, first page. */
  function Initial(url: string): (p: Pager)
    ensures p.url == url && p.numPages.None? && p.page == 1
  {
    Pager(url, None, 1)
  }

  function Max(a: int, b: int): int { if a >= b then a else b }
  function Min(a: int, b: int): int { if a <= b then a else b }

  /** The page count when it is known and non-zero (`numPages ||`). */
  predicate HasCount(p: Pager) {
    p.numPages.Some? && p.numPages.value != 0
  }

  /** `goToPrevPage`: `max(page - 1, 1)`. */
  function Prev(p: Pager): (r: Pager)
    ensures r.url == p.url && r.numPages == p.numPages
    ensures r.page >= 1
    ensures p.page > 1 ==> r.page == p.page - 1
    ensures p.page <= 1 ==> r.page == 1
  {
    p.(page := Max(p.page - 1, 1))
  }

  /** `goToNextPage`: `min(page + 1, numPages || page)`. */
  function Next(p: Pager): (r: Pager)
    ensures r.url == p.url && r.numPages == p.numPages
    ensures !HasCount(p) ==> r == p
    ensures HasCount(p) ==> r.page <= p.numPages.value
    ensures HasCount(p) && p.page < p.numPages.value ==> r.page == p.page + 1
    ensures HasCount(p) && p.page >= p.numPages.value ==> r.page == p.numPages.value
  {
    p.(page := Min(p.page + 1, if HasCount(p) then p.numPages.value else p.page))
  }

  /** The reset effect, which runs when `url` changes: back to page 1. The
      page count is left as it was. */
  function ChangeUrl(p: Pager, url: string): (r: Pager)
    ensures r.url == url && r.numPages == p.numPages
    ensures url != p.url ==> r.page == 1
    ensures url == p.url ==> r == p
  {
    if url == p.url then p else p.(url := url, page := 1)
  }

  /** `onDocumentLoadSuccess`: record the page count. */
  function Load(p: Pager, n: nat): (r: Pager)
    ensures r.url == p.url && r.page == p.page && r.numPages == Some(n)
  {
    p.(numPages := Some(n))
  }

  /** The previous-page button is disabled at or below page 1. */
  predicate PrevDisabled(p: Pager) {
    p.page <= 1
  }

  /** The next-page button is disabled once the count is known and reached. */
  predicate NextDisabled(p: Pager) {
    p.numPages.Some? && p.page >= p.numPages.value
  }

  /** One event; a click on a disabled button does nothing. */
  function Step(p: Pager, e: Event): (r: Pager)
    ensures e.UrlChanged? ==> r.url == e.newUrl
    ensures !e.UrlChanged? ==> r.url == p.url
    ensures e.Loaded? ==> r.numPages == Some(e.n)
    ensures !e.Loaded? ==> r.numPages == p.numPages
    ensures p.page >= 1 ==> r.page >= 1
  {
    match e
    case PrevClicked => if PrevDisabled(p) then p else Prev(p)
    case NextClicked => if NextDisabled(p) then p else Next(p)
    case UrlChanged(u) => ChangeUrl(p, u)
    case Loaded(n) => Load(p, n)
  }

  function Run(p: Pager, events: seq<Event>): (r: Pager)
    ensures (forall k :: 0 <= k < |events| ==> !events[k].UrlChanged?) ==> r.url == p.url
    ensures (forall k :: 0 <= k < |events| ==> !events[k].Loaded?) ==> r.numPages == p.numPages
    decreases |events|
  {
    if |events| == 0 then p else Run(Step(p, events[0]), events[1..])
  }

  /** The page stays in `1..n` when the count `n` is known and positive. */
  predicate InBounds(p: Pager) {
    p.page >= 1 && (HasCount(p) ==> p.page <= p.numPages.value)
  }

  /** Both page buttons keep the page in bounds, even when pressed while
      disabled. */
  lemma ButtonsKeepBounds(p: Pager)
    requires InBounds(p)
    ensures InBounds(Prev(p)) && InBounds(Next(p))
  {
  }

  /** Prev never leaves page 1, and is a no-op there. */
  lemma PrevAtFirstPage(p: Pager)
    requires p.page == 1
    ensures Prev(p) == p
  {
  }

  /** An enabled previous button always decrements the page. */
  lemma EnabledPrevDecrements(p: Pager)
    requires !PrevDisabled(p)
    ensures Step(p, PrevClicked).page == p.page - 1
  {
  }

  /** An enabled next button increments the page once the count is known,
      and is enabled but inert while the count is unknown. */
  lemma EnabledNextSemantics(p: Pager)
    requires p.page >= 1
    ensures p.numPages.None? ==> !NextDisabled(p) && Step(p, NextClicked) == p
    ensures p.numPages.Some? && !NextDisabled(p) ==> Step(p, NextClicked).page == p.page + 1
  {
  }

  /** The page never drops below 1 over any run from mount. */
  lemma {:induction false} PageAtLeastOne(p: Pager, events: seq<Event>)
    requires p.page >= 1
    ensures Run(p, events).page >= 1
    decreases |events|
  {
    if |events| > 0 {
      PageAtLeastOne(Step(p, events[0]), events[1..]);
    }
  }

  /** Every event except a late page count keeps the page in bounds: a
      count `n` arriving while the page is beyond `n` is the only way out. */
  lemma StepKeepsBounds(p: Pager, e: Event)
    requires InBounds(p)
    requires e.Loaded? ==> e.n == 0 || p.page <= e.n
    ensures InBounds(Step(p, e))
  {
  }

  /** The page count survives a URL change, so next-page clicks before the
      new document loads are bounded by the old count, and a smaller new
      count can leave the page beyond the end. */
  lemma StaleCountExample()
    ensures var p := Run(Initial("a.pdf"),
        [Loaded(10), UrlChanged("b.pdf"), NextClicked, NextClicked, Loaded(2)]);
      p.page == 3 && p.numPages == Some(2) && !InBounds(p)
  {
    var p0 := Initial("a.pdf");
    var p1 := Step(p0, Loaded(10));
    var p2 := Step(p1, UrlChanged("b.pdf"));
    var p3 := Step(p2, NextClicked);
    var p4 := Step(p3, NextClicked);
    assert p4.page == 3;
    var p5 := Step(p4, Loaded(2));
    assert Run(p5, []) == p5;
    assert Run(p4, [Loaded(2)]) == p5;
    assert [NextClicked, Loaded(2)][1..] == [Loaded(2)];
    assert Run(p3, [NextClicked, Loaded(2)]) == p5;
    assert [NextClicked, NextClicked, Loaded(2)][1..] == [NextClicked, Loaded(2)];
    assert Run(p2, [NextClicked, NextClicked, Loaded(2)]) == p5;
  }
}
