# PDF highlight viewer: a Dafny model

This project models the core of a single-page PDF viewer. A user selects text on a page to create a *highlight*. They can then ask a search service for passages related to the highlight, and jump the view to a highlight or to a related *match*. A yellow overlay marks the target for two seconds. Two pieces of the code are modelled:

- **The viewer controller** (`src/components/PDFViewer.tsx`) is modelled as the class `Viewer.PdfViewer`. It has the component's state fields (`numPages`, `pageNumber`, `highlights`, `relatedResults`, `isLoading`, `showRelatedPanel`, `error`, `highlightOverlay`, `pageRefs`). Each handler is a method that updates them. The awaited search splits into `StartFind` (everything before the `await`) and `Resolve(outcome)` (everything after it). Each `setTimeout` dismissal is counted in `pendingDismissals` and fires as the explicit event `DismissTimerFires`. Every method states the whole new state as `Snapshot() == old(Snapshot()).(...)` and preserves `Valid()`. The rectangle arithmetic is written as pure functions in `Geometry`.
- **The search client** (`src/services/api.ts`) is modelled as the pure function `Api.SearchRelatedText`. It takes the query, the file, `top_k` and the outcome of the HTTP POST, which is given as an input. It returns the request it sent, if any, and the value it returned or the error it threw. The module also covers the length guard, the form fields, and the mapping from a failure to an error message.
- **The records** of `src/types/index.ts` are the datatypes of `Types`. `Text` holds the JavaScript string operations the code relies on: `trim`, `includes`, `join` and decimal rendering.
- `ViewerScenarios` drives a fresh viewer through the event sequences worth stating end to end.

The model follows the code. The code does none of the following:
- It has no request token: a late response would overwrite state. Only one request is ever in flight, because the Find Related button is disabled while loading.
- The dismiss timer does no identity check: any pending timer clears whatever overlay is live.
- Boxes whose corners are reversed are not rejected. They give a negative width or height.
- The viewer never shows the message that the search client throws. It always shows a fixed message that names port 8000.

## Model

| member | source | states |
|---|---|---|
| `Viewer.PdfViewer.constructor` | src/components/PDFViewer.tsx:16-28 | initial state: no pages known, page 1, no highlights, no results, not loading, panel hidden, no error, no overlay, no page elements |
| `Viewer.PdfViewer.OnDocumentLoadSuccess` | src/components/PDFViewer.tsx:30-32 | only `numPages` changes; the current page is not reset |
| `Viewer.PdfViewer.RegisterPageElement` | src/components/PDFViewer.tsx:183-186 | a mounted element is recorded under the current page number; a null ref changes nothing |
| `Viewer.AnchorRect` | src/components/PDFViewer.tsx:43-46 | a page rectangle exists exactly when an element is registered for the page |
| `Viewer.HighlightFromSelection` | src/components/PDFViewer.tsx:35-59 | no highlight exactly when the selection is absent, collapsed or all whitespace, or the page has no element; otherwise the highlight has the trimmed (non-empty, unpadded) text, the current page, the given id, and a position that, placed back on the page rectangle, is the selection's rectangle |
| `Viewer.PdfViewer.HandleTextSelection` | src/components/PDFViewer.tsx:34-64 | a qualifying selection appends exactly one highlight at the end, earlier entries unchanged and no deduplication, and the selection is cleared; otherwise nothing changes; every stored text stays non-empty and trimmed |
| `Geometry.SelectionToPosition` | src/components/PDFViewer.tsx:47-52 | placing the stored position back on the page rectangle gives the selection rectangle: x and y are offsets from the page's corner, and width and height are copied |
| `Geometry.PlaceOnPage` | src/components/PDFViewer.tsx:193-200 | the overlay drawn at a position has that position's width and height |
| `Geometry.PositionRoundTrip` | src/components/PDFViewer.tsx:47-52 | a page-local position that is drawn and measured again is unchanged |
| `Geometry.ScrollInvariant` | src/components/PDFViewer.tsx:42-52 | moving the selection and the page by the same amount leaves the stored position unchanged |
| `Geometry.BoundingBoxToPosition` | src/components/PDFViewer.tsx:99-107 | the overlay position spans the match's box from (x0, y0) to (x1, y1) |
| `Geometry.BoxRoundTrip` | src/components/PDFViewer.tsx:102-107 | converting a position to a box and back gives the position unchanged |
| `Geometry.DegenerateBoxKept` | src/components/PDFViewer.tsx:105-106 | a reversed box is not rejected: the width or height is negative exactly when the box is reversed |
| `Viewer.Visible` | src/components/PDFViewer.tsx:191-192 | the overlay is drawn exactly when it exists and is on the current page |
| `Viewer.JumpCoversSelection` | src/components/PDFViewer.tsx:88-93 | jumping to a highlight draws the overlay over the rectangle that was selected, if the page has not moved |
| `Viewer.MatchOverlaySpansBox` | src/components/PDFViewer.tsx:98-108 | a match's overlay is on the match's page and spans its bounding box |
| `Viewer.PdfViewer.StartFind` | src/components/PDFViewer.tsx:66-72 | with no file nothing changes; otherwise loading starts, the panel opens, results and error are cleared, and the highlight's text is the query in flight |
| `Viewer.PdfViewer.Resolve` | src/components/PDFViewer.tsx:74-85 | on success the results are the response's, in order, with no error; on any failure the results are empty and the error is the fixed port-8000 message; loading ends either way; the request it returns is the search client's for the query in flight, the document and top_k 10 |
| `Viewer.PdfViewer.JumpToHighlight` | src/components/PDFViewer.tsx:88-95 | the page becomes the highlight's page, the overlay is the highlight's page and position, and one more dismiss timer is pending |
| `Viewer.PdfViewer.JumpToMatch` | src/components/PDFViewer.tsx:97-110 | the page becomes the match's page, the overlay is the match's box as a rectangle, and one more dismiss timer is pending |
| `Viewer.PdfViewer.DismissTimerFires` | src/components/PDFViewer.tsx:94 | any pending timer clears the overlay, whichever jump created it |
| `Viewer.PdfViewer.GoToPreviousPage` | src/components/PDFViewer.tsx:155-157 | the page becomes max(1, p - 1); nothing else changes |
| `Viewer.PdfViewer.GoToNextPage` | src/components/PDFViewer.tsx:167-171 | the page becomes min(numPages, p + 1); nothing else changes |
| `Viewer.PdfViewer.CloseRelatedPanel` | src/components/PDFViewer.tsx:222 | only `showRelatedPanel` changes, to false |
| `Viewer.NavigationStaysInRange` | src/components/PDFViewer.tsx:156-169 | from a page in [1, numPages], both buttons keep the page in [1, numPages] |
| `Viewer.NavigationSteps` | src/components/PDFViewer.tsx:155-171 | a button is disabled exactly when its handler would leave the page unchanged; an enabled button moves one page |
| `Viewer.NavigationInverse` | src/components/PDFViewer.tsx:156-169 | away from the ends, Previous undoes Next and Next undoes Previous |
| `ViewerScenarios.SelectionScenario` | src/components/PDFViewer.tsx:34-64 | on page 3, once its wrapper is registered, a padded selection is stored trimmed, with its offset from the page; selecting the same text again stores a second highlight |
| `ViewerScenarios.EarlySelectionScenario` | src/components/PDFViewer.tsx:43-45 | a selection made before any page element is registered is dropped and the platform selection is left alone |
| `ViewerScenarios.BlankSelectionScenario` | src/components/PDFViewer.tsx:35-39 | on a loaded document with a registered page element, absent, collapsed and whitespace-only selections add no highlight |
| `ViewerScenarios.FindRelatedScenario` | src/components/PDFViewer.tsx:66-85 | a successful search leaves the panel open with the server's results in order, no error and loading off; the request the viewer's own `Resolve` returns is the form for the highlight's text, the document and top_k 10 |
| `ViewerScenarios.TooLongQueryScenario` | src/components/PDFViewer.tsx:74-84 | a query over 1000 characters: the viewer's `Resolve` returns no request, and the viewer shows the fixed port-8000 message and empty results |
| `ViewerScenarios.NoDocumentScenario` | src/components/PDFViewer.tsx:66-67 | with no file, find-related neither loads nor opens the panel |
| `ViewerScenarios.JumpToMatchScenario` | src/components/PDFViewer.tsx:97-108 | on a loaded 5-page document, box (10,20)-(110,70) on page 5 gives page 5 and a visible overlay at (10,20) sized 100 by 50 |
| `ViewerScenarios.StaleTimerScenario` | src/components/PDFViewer.tsx:88-110 | the first jump's timer clears the overlay created by a second jump |
| `ViewerScenarios.NavigateAwayScenario` | src/components/PDFViewer.tsx:155-192 | leaving the overlay's page hides the overlay but keeps it live; returning shows it again |
| `Text.Trim` | src/components/PDFViewer.tsx:38 | the trimmed text is empty exactly when the input is all ECMAScript whitespace, and it never starts or ends with whitespace |
| `Text.TrimPadding` | src/components/PDFViewer.tsx:38 | trimming removes exactly the whitespace around an unpadded core |
| `Text.TrimIdempotent` | src/components/PDFViewer.tsx:38 | trimming twice is the same as trimming once |
| `Api.CheckQueryLength` | src/services/api.ts:12-14 | the query passes exactly when it has at most 1000 characters; otherwise the error message starts with "Query is too long (", reports the actual length, follows its digits with exactly " characters). " and ends with "Maximum allowed is 1000 characters." |
| `Api.TooLongQueryMessageEnds` | src/services/api.ts:13 | the guard's message follows the length's digits with " characters). " and ends by stating the 1000-character maximum |
| `Api.ReportedLengthRoundTrip` | src/services/api.ts:13 | the length can be read back from the guard's message |
| `Api.RequestCarriesInputs` | src/services/api.ts:16-19 | the request's `query`, `file` and `top_k` fields return the caller's query, file and topK when read back |
| `Api.SearchRelatedText` | src/services/api.ts:6-60 | no request exactly when the query is over 1000 characters, in which case the guard's message is thrown; otherwise the request is built from the inputs, delivered data is returned unchanged, and a failure is normalised |
| `Api.SearchSucceedsIff` | src/services/api.ts:12-32 | a call returns data exactly when the query passes the guard and the POST delivers |
| `Api.MaximumLengthPasses` | src/services/api.ts:9-19 | a query of exactly 1000 characters reaches the server with top_k 10 |
| `Api.StatedMaximum` | src/services/api.ts:42 | a non-zero `max_length` is the stated limit; a missing or zero one reads as 1000 |
| `Api.ReportedLimitRoundTrip` | src/services/api.ts:42 | the limit written into a too-long entry can be read back from its text |
| `Api.ItemMessage` | src/services/api.ts:41-44 | a `string_too_long` item's entry is "Query is too long. Maximum allowed is ", the limit (or 1000) written in canonical decimal with no leading zero, and " characters.", and reads back as that limit; another item's entry is its non-empty `msg`, else 'Validation error'; no entry is empty |
| `Api.ItemMessagesAppend` | src/services/api.ts:40-45 | the entries of concatenated item lists are the entries of each list, in order |
| `Api.ArrayMessageInOrder` | src/services/api.ts:40-46 | the entries are joined with ", " in input order: splitting the items splits the message |
| `Api.ArrayMessageEmptyIff` | src/services/api.ts:38-46 | an array detail's message is empty exactly when the array is empty |
| `Api.TooLongFormsAgree` | src/services/api.ts:40-50 | a string detail containing `string_too_long` and a one-item array with a too-long item and no limit give the same fixed 1000-character message |
| `Api.FallbackMessage` | src/services/api.ts:56 | the first non-empty of the server's `message`, the client's message and 'Failed to search'; never empty |
| `Api.Normalise` | src/services/api.ts:34-58 | a non-HTTP-client error is rethrown unchanged; a 422 with array detail gives the joined entries; a 422 string detail gives the fixed 1000-character message if it contains `string_too_long`, else itself verbatim; any other HTTP-client error gives the fallback message |
| `Api.RaisedEmptyIff` | src/services/api.ts:36-56 | the thrown message is empty exactly for a 422 whose detail is an empty array or an empty string |
| `Text.Contains` | src/services/api.ts:49 | `includes` holds exactly when the pattern occurs at some index |
| `Text.JoinSplit` | src/services/api.ts:45 | a join splits at any inner boundary, with the parts in order and one separator between neighbours |
| `Text.IntRoundTrip` | src/services/api.ts:19 | parsing the decimal rendering of an integer gives back the integer |
| `Text.DecimalRoundTrip` | src/services/api.ts:13 | the digits written for a length can be read back as that length |

## Left out

- Rendering by react-pdf: the worker URL, `<Document>` and `<Page>` (src/components/PDFViewer.tsx:2, 10, 182-189) are an external renderer. Its only inputs to the model are the page count (`OnDocumentLoadSuccess`) and page elements (`RegisterPageElement`).
- DOM access is not modelled. `window.getSelection` becomes the `Selection` input, and `getBoundingClientRect` becomes the `measure` function and the selection's `rangeRect`. `removeAllRanges` becomes the `cleared` result. The `mouseup` listener's registration and removal in `useEffect` (src/components/PDFViewer.tsx:112-117) are left out.
- The HTTP POST, `FormData` transport and `File` contents (src/services/api.ts:16-30) are left out. What the POST produced is the `Outcome` input, and the request is a list of named fields.
- Highlight ids come from `Date.now().toString()` (src/components/PDFViewer.tsx:55). The model takes the id as a parameter and claims nothing about uniqueness.
- Real time is not modelled. Timers fire only on the explicit `DismissTimerFires` event, and all pending timers are interchangeable, which matches the code: no timer carries an identity.
- `console.error` (src/components/PDFViewer.tsx:78) is left out because it is logging only.
- `StartFind`: requires `!isLoading`, because the Find Related button is disabled while loading (src/components/HighlightPanel.tsx:48). Overlapping searches, and a late response overwriting a newer one, are therefore not modelled.
- `CheckQueryLength`: counts Unicode characters. JavaScript's `length` counts UTF-16 code units, so the two differ for characters outside the Basic Multilingual Plane.
- `IntToDecimal`: renders integers only. JavaScript numbers are floating point, so a fractional `ctx.max_length` or `top_k`, or exponent notation from 1e21 up, is not covered.
- Coordinates, widths and heights are exact reals. Floating-point rounding of the subtractions is not modelled.
- A validation item is modelled as a record of optional `type`, `ctx.max_length` and `msg`; a primitive item, whose properties all read as undefined, is the record with all three absent. A null or undefined item (reading `err.type` throws a TypeError) and a truthy non-string `msg` are not modelled. `ctx.max_length` is modelled as an optional integer, so a non-number value is not modelled: a truthy string such as "0" is written into the message as it stands, whereas `StatedMaximum` reads the integer 0 as 1000. The response body's `message` is modelled as an optional string, so a truthy non-string `message`, which the fallback would stringify, is not modelled either.
- The confidence percentage (src/components/RelatedResultsPanel.tsx:57) is left out because it is floating-point display.
- `HighlightPanel.tsx`, `RelatedResultsPanel.tsx` and `EmptyState.tsx` are left out because they are presentational.
- `App.tsx` (the upload gate on the `application/pdf` type) and the reload-on-upload screen at src/components/PDFViewer.tsx:119-146 are left out because they are outside the viewer's state.
- React's render scheduling and batching are not modelled. Each handler is one atomic state change.
