/** The records shared by the viewer and the search client (src/types/index.ts). */
module Types {

  datatype Option<+T> = None | Some(value: T)

  datatype Result<+R, +E> = Success(value: R) | Failure(error: E)

  /** A rectangle in page-local pixels: a highlight's position and the overlay's. */
  datatype Position = Position(x: real, y: real, width: real, height: real)

  /** A match's box in absolute page coordinates, as the search service sends it. */
  datatype BoundingBox = BoundingBox(x0: real, y0: real, x1: real, y1: real)

  /** A user-made highlight; `id` is whatever the caller supplied at creation. */
  datatype Highlight = Highlight(id: string, text: string, pageNumber: int, position: Position)

  datatype SearchResult = SearchResult(
    pageNumber: int,
    text: string,
    snippet: string,
    confidence: real,
    boundingBox: BoundingBox)

  datatype SearchResponse = SearchResponse(results: seq<SearchResult>, totalResults: int, query: string)

  /** The uploaded document, passed through to the request untouched. */
  datatype PdfFile = PdfFile(name: string, bytes: seq<bv8>)
}
