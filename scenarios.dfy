/**
 * Event sequences driven through a fresh viewer, each stating what the
 * user sees at the end. They use only the controller's method contracts.
 */
module ViewerScenarios {
  import opened Types
  import opened Text
  import opened Geometry
  import Api
  import opened Viewer

  /**
   * Once five pages have loaded and page 3 is rendered (its wrapper
   * registered by the ref callback), selecting "Revenue grew 12%" with stray
   * whitespace stores the trimmed text with its offset from the page's
   * corner; selecting the same text again adds a second, identical-looking
   * highlight.
   */
  method SelectionScenario(file: PdfFile, element: PageElement, firstId: string, secondId: string)
    returns (highlights: seq<Highlight>)
    ensures highlights == [
      Highlight(firstId, "Revenue grew 12%", 3, Position(30.0, 40.0, 120.0, 16.0)),
      Highlight(secondId, "Revenue grew 12%", 3, Position(30.0, 40.0, 120.0, 16.0))]
  {
    var v := new PdfViewer(Some(file));
    v.OnDocumentLoadSuccess(5);
    v.GoToNextPage();
    v.GoToNextPage();
    v.RegisterPageElement(Some(element));
    var measure := (e: PageElement) => ClientRect(100.0, 200.0, 800.0, 1000.0);
    var selection := Selection(false, "  Revenue grew 12%\n", ClientRect(130.0, 240.0, 120.0, 16.0));
    assert Trim(selection.text) == "Revenue grew 12%" by {
      var core := "Revenue grew 12%";
      assert selection.text == "  " + core + "\n";
      TrimPadding("  ", core, "\n");
    }
    var cleared := v.HandleTextSelection(Some(selection), measure, firstId);
    cleared := v.HandleTextSelection(Some(selection), measure, secondId);
    highlights := v.highlights;
  }

  /** A mouse-up before the document has loaded finds no page element: the selection is dropped. */
  method EarlySelectionScenario(file: PdfFile, selection: Selection, measure: PageElement -> ClientRect, id: string)
    returns (highlights: seq<Highlight>, cleared: bool)
    ensures highlights == [] && !cleared
  {
    var v := new PdfViewer(Some(file));
    cleared := v.HandleTextSelection(Some(selection), measure, id);
    highlights := v.highlights;
  }

  /** A whitespace-only or collapsed selection never adds a highlight. */
  method BlankSelectionScenario(file: PdfFile, element: PageElement, text: string, rect: ClientRect, id: string)
    returns (count: nat)
    requires AllSpace(text)
    ensures count == 0
  {
    var v := new PdfViewer(Some(file));
    v.OnDocumentLoadSuccess(1);
    v.RegisterPageElement(Some(element));
    var measure := (e: PageElement) => ClientRect(0.0, 0.0, 800.0, 1000.0);
    var cleared := v.HandleTextSelection(Some(Selection(false, text, rect)), measure, id);
    cleared := v.HandleTextSelection(Some(Selection(true, "x", rect)), measure, id);
    cleared := v.HandleTextSelection(None, measure, id);
    count := |v.highlights|;
  }

  /**
   * Find-related on a query within the limit whose request succeeds: the
   * panel is open with the server's results in the server's order, no
   * error, and no longer loading; the request asked for the default 10 results.
   */
  method FindRelatedScenario(file: PdfFile, h: Highlight, response: SearchResponse)
    returns (results: seq<SearchResult>, error: Option<string>, loading: bool, panelOpen: bool, sent: Option<Api.Request>)
    requires |h.text| <= Api.MaxQueryLength
    ensures results == response.results && error == None && !loading && panelOpen
    ensures sent == Some(Api.BuildRequest(h.text, file, 10))
  {
    var v := new PdfViewer(Some(file));
    v.StartFind(h);
    assert v.isLoading && v.showRelatedPanel && v.relatedResults == [];
    sent := v.Resolve(Api.Delivered(response));
    results, error, loading, panelOpen := v.relatedResults, v.error, v.isLoading, v.showRelatedPanel;
  }

  /**
   * Find-related on a query over the limit: no request is built, and the
   * viewer shows the fixed backend message rather than the guard's own.
   */
  method TooLongQueryScenario(file: PdfFile, h: Highlight, outcome: Api.Outcome)
    returns (results: seq<SearchResult>, error: Option<string>, loading: bool, sent: Option<Api.Request>)
    requires |h.text| > Api.MaxQueryLength
    ensures results == [] && error == Some(BackendUnreachableMessage) && !loading
    ensures sent == None
  {
    var v := new PdfViewer(Some(file));
    v.StartFind(h);
    sent := v.Resolve(outcome);
    results, error, loading := v.relatedResults, v.error, v.isLoading;
  }

  /** Without a document, find-related neither opens the panel nor starts loading. */
  method NoDocumentScenario(h: Highlight) returns (loading: bool, panelOpen: bool)
    ensures !loading && !panelOpen
  {
    var v := new PdfViewer(None);
    v.StartFind(h);
    loading, panelOpen := v.isLoading, v.showRelatedPanel;
  }

  /** Jumping to a match on page 5 with box (10, 20)-(110, 70) shows a 100 by 50 overlay at (10, 20) on page 5. */
  method JumpToMatchScenario(file: PdfFile, m: SearchResult) returns (page: int, shown: Option<Overlay>)
    requires m.pageNumber == 5 && m.boundingBox == BoundingBox(10.0, 20.0, 110.0, 70.0)
    ensures page == 5
    ensures shown == Some(Overlay(5, Position(10.0, 20.0, 100.0, 50.0)))
  {
    var v := new PdfViewer(Some(file));
    v.OnDocumentLoadSuccess(5);
    v.JumpToMatch(m);
    page, shown := v.pageNumber, v.VisibleOverlay();
  }

  /**
   * Two jumps in quick succession: the first jump's timer fires first and
   * clears the overlay the second jump made; the second timer is still pending.
   */
  method StaleTimerScenario(file: PdfFile, h: Highlight, m: SearchResult)
    returns (beforeFiring: Option<Overlay>, afterFiring: Option<Overlay>, stillPending: nat)
    ensures beforeFiring == Some(MatchOverlay(m))
    ensures afterFiring == None
    ensures stillPending == 1
  {
    var v := new PdfViewer(Some(file));
    v.JumpToHighlight(h);
    v.JumpToMatch(m);
    beforeFiring := v.highlightOverlay;
    v.DismissTimerFires();
    afterFiring, stillPending := v.highlightOverlay, v.pendingDismissals;
  }

  /** Leaving the overlay's page hides it without clearing it; coming back shows it again. */
  method NavigateAwayScenario(file: PdfFile, m: SearchResult)
    returns (awayShown: Option<Overlay>, awayLive: Option<Overlay>, backShown: Option<Overlay>)
    requires m.pageNumber == 5
    ensures awayShown == None
    ensures awayLive == Some(MatchOverlay(m))
    ensures backShown == Some(MatchOverlay(m))
  {
    var v := new PdfViewer(Some(file));
    v.OnDocumentLoadSuccess(10);
    v.JumpToMatch(m);
    v.GoToPreviousPage();
    awayShown, awayLive := v.VisibleOverlay(), v.highlightOverlay;
    v.GoToNextPage();
    backShown := v.VisibleOverlay();
  }
}
