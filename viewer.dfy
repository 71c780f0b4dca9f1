/**
 * The document viewer's controller (`PDFViewer`): one object owning the
 * page counter, the highlight list, the related-results panel state, the
 * jump overlay and the page-element registry. Every handler is a method
 * that updates those fields. The awaited search is two events (`StartFind`,
 * `Resolve`) and each two-second dismiss timer is an explicit event
 * (`DismissTimerFires`).
 */
module Viewer {
  import opened Types
  import opened Text
  import opened Geometry
  import Api

  const BackendUnreachableMessage :=
    "Failed to connect to backend server. Please make sure the server is running on port 8000."

  /** The overlay drawn over a page after a jump. */
  datatype Overlay = Overlay(pageNumber: int, position: Position)

  /** The identity of a rendered page's element, as registered by its ref callback. */
  datatype PageElement = PageElement(node: nat)

  /** What the platform selection offers on mouse-up: collapsed or not, its text, its range's rectangle. */
  datatype Selection = Selection(isCollapsed: bool, text: string, rangeRect: ClientRect)

  /** All fields of a viewer at one instant. */
  datatype ViewState = ViewState(
    numPages: int,
    pageNumber: int,
    highlights: seq<Highlight>,
    relatedResults: seq<SearchResult>,
    isLoading: bool,
    showRelatedPanel: bool,
    error: Option<string>,
    highlightOverlay: Option<Overlay>,
    pageRefs: map<int, PageElement>,
    pendingQuery: Option<string>,
    pendingDismissals: nat)

  // ---------------------------------------------------------------- selection

  /** The rectangle of the element registered for `page`, measured now, if there is one. */
  function AnchorRect(refs: map<int, PageElement>, page: int, measure: PageElement -> ClientRect): (r: Option<ClientRect>)
    ensures r.Some? <==> page in refs
  {
    if page in refs then Some(measure(refs[page])) else None
  }

  /**
   * The highlight a mouse-up creates, if any. The selection is dropped when it
   * is absent, collapsed or only whitespace, or when no page element is known;
   * otherwise the highlight holds the trimmed text, the current page and the
   * selection's offset from the page's corner.
   */
  function HighlightFromSelection(selection: Option<Selection>, pageNumber: int, pageRect: Option<ClientRect>, id: string)
    : (h: Option<Highlight>)
    ensures h.None? <==>
      selection.None? || selection.value.isCollapsed || AllSpace(selection.value.text) || pageRect.None?
    ensures h.Some? ==>
      && h.value.id == id
      && h.value.pageNumber == pageNumber
      && h.value.text == Trim(selection.value.text)
      && h.value.text != [] && Unpadded(h.value.text)
      && PlaceOnPage(h.value.position, pageRect.value) == selection.value.rangeRect
  {
    if selection.None? || selection.value.isCollapsed then None
    else
      var text := Trim(selection.value.text);
      if text == [] || pageRect.None? then None
      else Some(Highlight(id, text, pageNumber, SelectionToPosition(selection.value.rangeRect, pageRect.value)))
  }

  // ---------------------------------------------------------------- overlay

  function HighlightOverlay(h: Highlight): Overlay {
    Overlay(h.pageNumber, h.position)
  }

  function MatchOverlay(m: SearchResult): Overlay {
    Overlay(m.pageNumber, BoundingBoxToPosition(m.boundingBox))
  }

  /** The overlay actually drawn: the live one, and only on its own page. */
  function Visible(overlay: Option<Overlay>, page: int): (v: Option<Overlay>)
    ensures v.Some? <==> overlay.Some? && overlay.value.pageNumber == page
    ensures v.Some? ==> v == overlay
  {
    if overlay.Some? && overlay.value.pageNumber == page then overlay else None
  }

  /**
   * Jumping to a highlight draws the overlay exactly over the rectangle that
   * was selected, as long as the page element has not moved.
   */
  lemma JumpCoversSelection(selection: Option<Selection>, pageNumber: int, pageRect: Option<ClientRect>, id: string)
    requires HighlightFromSelection(selection, pageNumber, pageRect, id).Some?
    ensures var h := HighlightFromSelection(selection, pageNumber, pageRect, id).value;
      PlaceOnPage(HighlightOverlay(h).position, pageRect.value) == selection.value.rangeRect
  {
  }

  /** A match's overlay spans its bounding box, corner to corner. */
  lemma MatchOverlaySpansBox(m: SearchResult)
    ensures BoxOf(MatchOverlay(m).position) == m.boundingBox
    ensures MatchOverlay(m).pageNumber == m.pageNumber
  {
  }

  // ---------------------------------------------------------------- navigation

  /** `Math.max(1, p - 1)`. */
  function PreviousPage(p: int): int {
    if p - 1 < 1 then 1 else p - 1
  }

  /** `Math.min(numPages, p + 1)`. */
  function NextPage(p: int, numPages: int): int {
    if p + 1 < numPages then p + 1 else numPages
  }

  /** The Previous button is disabled at or below page 1. */
  predicate PreviousDisabled(p: int) {
    p <= 1
  }

  /** The Next button is disabled at or past the last page. */
  predicate NextDisabled(p: int, numPages: int) {
    p >= numPages
  }

  /** Both buttons keep the page within [1, numPages]. */
  lemma NavigationStaysInRange(p: int, numPages: int)
    requires 1 <= p <= numPages
    ensures 1 <= PreviousPage(p) <= numPages
    ensures 1 <= NextPage(p, numPages) <= numPages
  {
  }

  /** An enabled button moves by exactly one page; a disabled one would leave the page alone. */
  lemma NavigationSteps(p: int, numPages: int)
    requires 1 <= p <= numPages
    ensures PreviousDisabled(p) <==> PreviousPage(p) == p
    ensures !PreviousDisabled(p) ==> PreviousPage(p) == p - 1
    ensures NextDisabled(p, numPages) <==> NextPage(p, numPages) == p
    ensures !NextDisabled(p, numPages) ==> NextPage(p, numPages) == p + 1
  {
  }

  /** Previous undoes Next and Next undoes Previous, away from the ends. */
  lemma NavigationInverse(p: int, numPages: int)
    ensures 1 <= p < numPages ==> PreviousPage(NextPage(p, numPages)) == p
    ensures 1 < p <= numPages ==> NextPage(PreviousPage(p), numPages) == p
  {
  }

  // ---------------------------------------------------------------- the controller

  class PdfViewer {
    const file: Option<PdfFile>
    var numPages: int
    var pageNumber: int
    var highlights: seq<Highlight>
    var relatedResults: seq<SearchResult>
    var isLoading: bool
    var showRelatedPanel: bool
    var error: Option<string>
    var highlightOverlay: Option<Overlay>
    var pageRefs: map<int, PageElement>
    /** The highlight text of the find-related call that is awaiting its response. */
    var pendingQuery: Option<string>
    /** Dismiss timers scheduled by jumps that have not fired yet. */
    var pendingDismissals: nat

    ghost function Snapshot(): ViewState
      reads this
    {
      ViewState(numPages, pageNumber, highlights, relatedResults, isLoading, showRelatedPanel,
                error, highlightOverlay, pageRefs, pendingQuery, pendingDismissals)
    }

    /**
     * Loading means a call is in flight; a call is in flight only with a
     * document; while loading the panel shows no results and no error; every
     * highlight's text is non-empty and trimmed.
     */
    ghost predicate Valid()
      reads this
    {
      && (isLoading <==> pendingQuery.Some?)
      && (pendingQuery.Some? ==> file.Some?)
      && (isLoading ==> relatedResults == [] && error.None?)
      && (forall k :: 0 <= k < |highlights| ==> highlights[k].text != [] && Unpadded(highlights[k].text))
    }

    /** The overlay on screen right now. */
    function VisibleOverlay(): Option<Overlay>
      reads this
    {
      Visible(highlightOverlay, pageNumber)
    }

    constructor (file: Option<PdfFile>)
      ensures Valid()
      ensures this.file == file
      ensures Snapshot() == ViewState(0, 1, [], [], false, false, None, None, map[], None, 0)
    {
      this.file := file;
      numPages, pageNumber := 0, 1;
      highlights, relatedResults := [], [];
      isLoading, showRelatedPanel := false, false;
      error, highlightOverlay := None, None;
      pageRefs := map[];
      pendingQuery, pendingDismissals := None, 0;
    }

    /** The renderer reports the page count; the current page is left as it is. */
    method OnDocumentLoadSuccess(n: nat)
      requires Valid()
      modifies this
      ensures Valid()
      ensures Snapshot() == old(Snapshot()).(numPages := n)
    {
      numPages := n;
    }

    /** The page wrapper's ref callback: a mounted element is recorded under the current page. */
    method RegisterPageElement(element: Option<PageElement>)
      requires Valid()
      modifies this
      ensures Valid()
      ensures element.Some? ==> Snapshot() == old(Snapshot()).(pageRefs := old(pageRefs)[old(pageNumber) := element.value])
      ensures element.None? ==> Snapshot() == old(Snapshot())
    {
      if element.Some? {
        pageRefs := pageRefs[pageNumber := element.value];
      }
    }

    /**
     * Mouse-up: a qualifying selection appends exactly one highlight at the
     * end (no deduplication) and the platform selection is cleared; anything
     * else leaves every field as it was. `measure` is the element's
     * bounding-rectangle query and `freshId` the id to give the highlight.
     */
    method HandleTextSelection(selection: Option<Selection>, measure: PageElement -> ClientRect, freshId: string)
      returns (cleared: bool)
      requires Valid()
      modifies this
      ensures Valid()
      ensures var created := HighlightFromSelection(selection, old(pageNumber), AnchorRect(old(pageRefs), old(pageNumber), measure), freshId);
        && cleared == created.Some?
        && Snapshot() == old(Snapshot()).(highlights := old(highlights) + if created.Some? then [created.value] else [])
    {
      var created := HighlightFromSelection(selection, pageNumber, AnchorRect(pageRefs, pageNumber, measure), freshId);
      if created.Some? {
        highlights := highlights + [created.value];
        cleared := true;
      } else {
        cleared := false;
      }
    }

    /**
     * Find-related, up to the await: without a document nothing changes;
     * otherwise the panel opens in its loading state with no results and no
     * error, and the highlight's text is the query in flight. The button is
     * disabled while loading, so a second call never overlaps the first.
     */
    method StartFind(h: Highlight)
      requires Valid() && !isLoading
      modifies this
      ensures Valid()
      ensures file.None? ==> Snapshot() == old(Snapshot())
      ensures file.Some? ==> Snapshot() == old(Snapshot()).(
        isLoading := true, showRelatedPanel := true, relatedResults := [], error := None,
        pendingQuery := Some(h.text))
    {
      if file.None? {
        return;
      }
      isLoading := true;
      showRelatedPanel := true;
      relatedResults := [];
      error := None;
      pendingQuery := Some(h.text);
    }

    /**
     * Find-related, after the await: on success the results are the
     * response's, in the order given; on any failure (including the client's
     * own length guard) the results are empty and the error is the fixed
     * backend message, whatever the thrown message said. Loading ends either way.
     * `sent` is the request the search client put on the wire, if any: the
     * query in flight, the document, and the default `top_k`.
     */
    method Resolve(outcome: Api.Outcome) returns (sent: Option<Api.Request>)
      requires Valid() && isLoading
      modifies this
      ensures Valid()
      ensures var call := Api.SearchRelatedText(old(pendingQuery).value, file.value, Api.DefaultTopK, outcome);
        sent == call.sent &&
        Snapshot() == old(Snapshot()).(
          isLoading := false, pendingQuery := None,
          relatedResults := if call.result.Success? then call.result.value.results else [],
          error := if call.result.Success? then None else Some(BackendUnreachableMessage))
    {
      var call := Api.SearchRelatedText(pendingQuery.value, file.value, Api.DefaultTopK, outcome);
      sent := call.sent;
      if call.result.Success? {
        relatedResults := call.result.value.results;
      } else {
        relatedResults := [];
        error := Some(BackendUnreachableMessage);
      }
      isLoading := false;
      pendingQuery := None;
    }

    /** Jump to a highlight: its page becomes current, its position the overlay, and a dismiss timer is scheduled. */
    method JumpToHighlight(h: Highlight)
      requires Valid()
      modifies this
      ensures Valid()
      ensures Snapshot() == old(Snapshot()).(
        pageNumber := h.pageNumber, highlightOverlay := Some(HighlightOverlay(h)),
        pendingDismissals := old(pendingDismissals) + 1)
    {
      pageNumber := h.pageNumber;
      highlightOverlay := Some(HighlightOverlay(h));
      pendingDismissals := pendingDismissals + 1;
    }

    /** Jump to a match: its page becomes current, its box the overlay, and a dismiss timer is scheduled. */
    method JumpToMatch(m: SearchResult)
      requires Valid()
      modifies this
      ensures Valid()
      ensures Snapshot() == old(Snapshot()).(
        pageNumber := m.pageNumber, highlightOverlay := Some(MatchOverlay(m)),
        pendingDismissals := old(pendingDismissals) + 1)
    {
      pageNumber := m.pageNumber;
      highlightOverlay := Some(MatchOverlay(m));
      pendingDismissals := pendingDismissals + 1;
    }

    /** Any scheduled dismiss timer fires: the overlay is cleared, whichever jump made it. */
    method DismissTimerFires()
      requires Valid() && pendingDismissals > 0
      modifies this
      ensures Valid()
      ensures Snapshot() == old(Snapshot()).(highlightOverlay := None, pendingDismissals := old(pendingDismissals) - 1)
    {
      highlightOverlay := None;
      pendingDismissals := pendingDismissals - 1;
    }

    method GoToPreviousPage()
      requires Valid()
      modifies this
      ensures Valid()
      ensures Snapshot() == old(Snapshot()).(pageNumber := PreviousPage(old(pageNumber)))
    {
      pageNumber := PreviousPage(pageNumber);
    }

    method GoToNextPage()
      requires Valid()
      modifies this
      ensures Valid()
      ensures Snapshot() == old(Snapshot()).(pageNumber := NextPage(old(pageNumber), old(numPages)))
    {
      pageNumber := NextPage(pageNumber, numPages);
    }

    /** The results panel's close button hides the panel and changes nothing else. */
    method CloseRelatedPanel()
      requires Valid()
      modifies this
      ensures Valid()
      ensures Snapshot() == old(Snapshot()).(showRelatedPanel := false)
    {
      showRelatedPanel := false;
    }
  }
}
