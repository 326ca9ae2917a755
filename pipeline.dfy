/**
 * The two halves together: boxes produced by the backend, drawn by the
 * viewer's overlay.
 */
module Pipeline {
  import opened Wrappers
  import opened Records
  import Backend
  import BoundingBox

  /**
   * A searchable record of words that lie inside their pages is drawn with a
   * non-negative size inside its canvas, whatever the canvas's position and
   * the container's.
   */
  lemma SearchableOverlayInsideCanvas(pages: seq<Backend.Page>, k: nat,
                                      canvasRect: BoundingBox.Rect, containerRect: BoundingBox.Rect)
    requires Backend.PositiveSizes(pages) && Backend.WordsInsidePages(pages)
    requires k < |Backend.SearchableRecords(pages)|
    requires canvasRect.width >= 0.0 && canvasRect.height >= 0.0
    ensures var r := BoundingBox.Place(Backend.SearchableRecords(pages)[k].bbox, canvasRect, containerRect);
      && r.width >= 0.0 && r.height >= 0.0
      && BoundingBox.Within(r, BoundingBox.Translate(canvasRect, -containerRect.left, -containerRect.top))
  {
    Backend.SearchableInUnit(pages);
    assert Backend.SearchableRecords(pages)[k] in Backend.SearchableRecords(pages);
    BoundingBox.PlaceInsideCanvas(Backend.SearchableRecords(pages)[k].bbox, canvasRect, containerRect);
  }

  /** The same for an OCR record whose boxes lie inside their page images. */
  lemma OcrOverlayInsideCanvas(pages: seq<Backend.OcrPage>, k: nat,
                               canvasRect: BoundingBox.Rect, containerRect: BoundingBox.Rect)
    requires Backend.BoxesInsideImages(pages)
    requires k < |Backend.OcrRecords(Some(pages))|
    requires canvasRect.width >= 0.0 && canvasRect.height >= 0.0
    ensures var r := BoundingBox.Place(Backend.OcrRecords(Some(pages))[k].bbox, canvasRect, containerRect);
      && r.width >= 0.0 && r.height >= 0.0
      && BoundingBox.Within(r, BoundingBox.Translate(canvasRect, -containerRect.left, -containerRect.top))
  {
    Backend.OcrRecordsGood(pages);
    assert Backend.OcrRecords(Some(pages))[k] in Backend.OcrRecords(Some(pages));
    BoundingBox.PlaceInsideCanvas(Backend.OcrRecords(Some(pages))[k].bbox, canvasRect, containerRect);
  }
}
