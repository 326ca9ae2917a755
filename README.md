# Youlearn text extraction and highlighting, modelled in Dafny

Youlearn extracts words and their positions from a remote PDF and highlights a
chosen word on the rendered page. This project models the two pieces of that
system whose behaviour can be stated exactly:

- **The extraction backend** (`backend/main.py`). This covers three functions.
  - `process_searchable_pdf` turns every word the PDF library reports into a
    record `{text, bbox, page_num}` whose box is divided by the page's width
    and height.
  - `ocr_pdf` does the same for the OCR engine's boxes, divided by the page
    image's size. It skips entries whose text is blank after `strip()`. When
    an exception is raised it returns what it has built so far.
  - `extract_text` uses OCR only when searchable extraction found nothing.

  The loops are Dafny methods over sequences. Each is proved equal to a
  specification function built one step at a time: `ProcessSearchablePdf`
  to `SearchableRecords`, `OcrPdf` to `OcrRecords`, and the per-page loop
  `RecognisePage` to `PageRun`. The source's promises are then lemmas about
  those functions. The OCR result is also compared with an independent
  reference of what the entries yield. It covers all three ways a run can
  end: nothing raises, a page cannot be rendered, or some entry is the
  first to raise. `ExtractText` has
  no loop: it is a method that calls the other two and whose contract states
  which result it returns.

  An exception inside the OCR `try` block ends the run with the records
  built so far. The model covers four such exceptions:
  - the document cannot be opened (the input is `None`, and nothing has been
    built);
  - a page cannot be rendered or recognised;
  - a non-blank entry lies past the end of one of the box arrays
    (IndexError). A blank entry is skipped before any box array is read, so
    it never raises;
  - a non-blank entry on an image of zero width or height
    (ZeroDivisionError).
- **The highlight overlay** (`next-app/src/components/BoundingBox.tsx`). This
  is a pure function. It takes the normalised box, the page number and the
  geometry the component reads: the container's rectangle, plus the canvas
  rectangle of each rendered page layer, keyed by zero-based index. It
  returns the overlay rectangle relative to the container, or nothing when
  the container, the page layer `pageNumber - 1` or its canvas is missing. The
  component's position state is a fold over the effect's runs. It starts at
  all zeros, and a run that finds nothing leaves it unchanged.

Python's `str.strip()` is modelled with the character set of `str.isspace()`
(module `PyStrings`). Coordinates are `real`.

The source has no event stream, no deduplication of records, no progress
tracking, no filter on which records are shown and no scale factor in the
projection. The backend returns one JSON object (`backend/main.py:101`).
The client reads it whole (`next-app/src/pages/index.tsx:39`). The
projection multiplies by the canvas's size and nothing else
(`next-app/src/components/BoundingBox.tsx:44-47`).

## Model

| member | source | states |
|---|---|---|
| `PyStrings.Strip` | backend/main.py:63 | The stripped text is no longer than the input and has no whitespace at either end. |
| `PyStrings.StripCharacterised` | backend/main.py:63-64 | The stripped text is a slice of the input. Everything cut off before or after it is whitespace. It is empty exactly when the input is all whitespace, which is when `if text:` skips the entry. |
| `PyStrings.LStripFacts` | backend/main.py:63 | Leading-whitespace removal keeps a suffix. It removes only whitespace and stops at the first non-space character. |
| `PyStrings.RStripFacts` | backend/main.py:63 | Trailing-whitespace removal keeps a prefix. It removes only whitespace and stops at the last non-space character. |
| `PyStrings.StripIdempotent` | backend/main.py:63 | Stripping an already stripped text changes nothing. |
| `Backend.ProcessSearchablePdf` | backend/main.py:27-48 | The nested page and word loops return exactly the specification `SearchableRecords` of the pages. |
| `Backend.SearchableOnePerWord` | backend/main.py:29-47 | There is one record per word. Word `j` of page `p` is at position (words on earlier pages) + `j`. Its text is the word's text unchanged, its page number is `p + 1`, and its box is `[x0/W, top/H, x1/W, bottom/H]` for that page's `W`, `H`. |
| `Backend.SearchableEmptyIff` | backend/main.py:29-48 | Searchable extraction returns an empty list if and only if no page has a word. |
| `Backend.SearchableInUnit` | backend/main.py:28-41 | When every word lies inside its page, every box is in `[0, 1]` with `x0 <= x1` and `y0 <= y1`. This is the docstring's "[0..1]" promise. |
| `Backend.OcrStep` | backend/main.py:63-80 | One OCR entry is skipped exactly when its stripped text is empty. It raises exactly when the text is non-blank and a box array is too short or the image has zero width or height. Otherwise it yields a record with the stripped text and the page's number. |
| `Backend.OcrStepDenormalises` | backend/main.py:65-74 | An emitted box multiplied back by the image size gives the engine's pixel box: `x0·W = left`, `y0·H = top`, `(x1-x0)·W = width`, `(y1-y0)·H = height`. |
| `Backend.AfterStep` | backend/main.py:62-83 | After one entry the records are unchanged or have grown by exactly the emitted record, and a run that has not raised does grow by an emitted record. The run has raised if and only if it had raised before or the entry raises. After a raise nothing changes. |
| `Backend.AfterPage` | backend/main.py:55-83 | After one page the records are unchanged or have grown by exactly that page's pass. A run that has not raised has rendered the page. A run that had not raised before a rendered page raises exactly when that page's pass raises. After a raise nothing changes. |
| `Backend.DocRun` | backend/main.py:53-83 | A pass over the first `n` pages that ends without an exception has rendered every one of those pages. |
| `Backend.OcrPdf` | backend/main.py:50-83 | The OCR pass returns exactly `OcrRecords` of its input. When an exception is raised it returns the records built before it, and nothing after it. |
| `Backend.RecognisePage` | backend/main.py:62-80 | The loop over one page's OCR entries gives exactly that page's run: its records and whether it raised. |
| `Backend.PageRunStaysRaised` | backend/main.py:62-83 | Once an entry of a page raises, no later entry of that page is processed. |
| `Backend.DocRunStaysRaised` | backend/main.py:53-83 | Once a page raises, no later page is processed. The result is the records accumulated up to that point. |
| `Backend.DocRunPrefix` | backend/main.py:52-83 | Records are only ever appended. The records after any number of pages are a prefix of the final result. |
| `Backend.OcrRecordsGood` | backend/main.py:62-80 | Every OCR record has non-blank text with no whitespace at either end, and a page number between 1 and the page count. Its box has `x0 <= x1` and `y0 <= y1` when the engine's widths and heights are non-negative. It is in `[0, 1]` when the boxes lie inside the page images. |
| `Backend.OcrCountBound` | backend/main.py:62-64 | There are no more OCR records than OCR entries. |
| `Backend.RefSnoc` | backend/main.py:62-80 | The reference records of entries `i..n+1` are those of `i..n` followed by those of entry `n`, so the reference can be built in the loop's order. |
| `Backend.OcrStepMatchesEntry` | backend/main.py:62-80 | One entry raises exactly when it is not "ok": it has non-blank text and a box array too short for it or an image of zero width or height. An entry that does not raise emits exactly its reference record, or nothing when its text is blank. |
| `Backend.PageRunBeforeRaise` | backend/main.py:62-80 | While none of a page's first `n` entries raises, the page's pass has not raised and has built exactly the reference records of those entries. |
| `Backend.PageRunFirstRaise` | backend/main.py:62-83 | When entry `n` is a page's first entry to raise, the page's pass ends raised, holding exactly the reference records of entries `0..n`. |
| `Backend.DocRunMatchesReference` | backend/main.py:53-80 | While nothing raises on the first `n` pages, the pass has not raised and has built exactly the reference of those pages. |
| `Backend.OcrHealthyMatchesReference` | backend/main.py:53-83 | This is the case where nothing raises: every page is rendered, and every non-blank entry has all four boxes and a non-zero image size. The OCR result then equals an independent page-by-page list. That list holds each non-blank entry's stripped text with the box `[left/w, top/h, (left+width)/w, (top+height)/h]`. |
| `Backend.OcrKeepsHealthyPrefix` | backend/main.py:53-83 | If nothing raises on the first `k` pages, their reference list is a prefix of what `ocr_pdf` returns, whatever happens later. |
| `Backend.OcrStopsAtFailedPage` | backend/main.py:53-83 | Suppose nothing raises on pages `0..k` and page `k` cannot be rendered. The result is then exactly the reference list of pages `0..k`, with nothing from page `k` or later. |
| `Backend.OcrStopsMidPage` | backend/main.py:53-83 | Suppose nothing raises on pages `0..k` and entry `n` of page `k` is that page's first entry to raise. The result is then exactly the reference list of pages `0..k`, followed by the reference records of page `k`'s entries `0..n`, and nothing after. |
| `Backend.OcrMidPageExample` | backend/main.py:62-83 | A 100×100 page with texts `"a"`, `"b"` but boxes for `"a"` only returns `[{text: "a", bbox: [0.1, 0.2, 0.4, 0.6], page_num: 1}]`. The second entry's IndexError discards nothing already built. |
| `Backend.OcrCasesExhaustive` | backend/main.py:53-83 | Every input falls under `OcrHealthyMatchesReference`, `OcrStopsAtFailedPage` or `OcrStopsMidPage`. Either nothing raises, or some page is the first that cannot be rendered, or some entry is the first to raise. |
| `Backend.ExtractText` | backend/main.py:94-101 | If some page has a word, the result is the searchable list unchanged. If no page has a word, the result is the OCR result. |
| `BoundingBox.CanvasOf` | next-app/src/components/BoundingBox.tsx:24-39 | A canvas is found exactly when the page layer at index `pageNumber - 1` exists and holds a canvas. |
| `BoundingBox.Place` | next-app/src/components/BoundingBox.tsx:41-54 | Move the overlay back by the container's position and you get exactly the canvas region `[canvas.left + x0·w, canvas.top + y0·h, (x1-x0)·w, (y1-y0)·h]`. So `left = canvas.left - container.left + x0·w` and `top = canvas.top - container.top + y0·h`. |
| `BoundingBox.Project` | next-app/src/components/BoundingBox.tsx:21-55 | One run of the effect yields nothing if and only if the container, the page layer or its canvas is missing. Otherwise the result, moved back by the container's position, is exactly the region that the box covers of the canvas in page layer `pageNumber - 1`. |
| `BoundingBox.RunEffect` | next-app/src/components/BoundingBox.tsx:21-55 | When the container, the page layer or its canvas is missing, the position is left as it was. Otherwise the new position, moved back by the container's position, is exactly the region of the canvas of page layer `pageNumber - 1` that the box covers. |
| `BoundingBox.PositionAfter` | next-app/src/components/BoundingBox.tsx:14-55 | After any sequence of runs the position is either the initial `{0, 0, 0, 0}` or exactly what one of the successful runs placed. |
| `BoundingBox.PositionZeroUntilSuccess` | next-app/src/components/BoundingBox.tsx:14-19 | Until some run of the effect succeeds, the position is `{0, 0, 0, 0}`. |
| `BoundingBox.PositionIsLatestSuccess` | next-app/src/components/BoundingBox.tsx:22-54 | The position is the result of the latest successful run. Runs that find nothing keep the previous position. |
| `BoundingBox.PlaceSizeIgnoresPosition` | next-app/src/components/BoundingBox.tsx:44-53 | Width is `(x1-x0)·canvas.width` and height is `(y1-y0)·canvas.height`. Neither depends on where the canvas or the container is. |
| `BoundingBox.PlaceContainerMoved` | next-app/src/components/BoundingBox.tsx:50-53 | Moving only the container by `(dx, dy)` moves the overlay by exactly `(-dx, -dy)` and keeps its size. |
| `BoundingBox.PlaceBothMoved` | next-app/src/components/BoundingBox.tsx:50-53 | Moving canvas and container together changes nothing. |
| `BoundingBox.ProjectUnderMoves` | next-app/src/components/BoundingBox.tsx:22-54 | A whole run of the effect is covariant in the same way: a lookup that succeeded before still succeeds, and vice versa. The overlay moves opposite to a container-only move and stays put under a joint move. |
| `BoundingBox.PlaceInsideCanvas` | next-app/src/components/BoundingBox.tsx:44-53 | Take a box with `0 <= x0 <= x1 <= 1`, `0 <= y0 <= y1 <= 1` and a canvas of non-negative size. The overlay then has non-negative width and height and lies inside the canvas, in container coordinates. |
| `BoundingBox.WorkedExample` | next-app/src/components/BoundingBox.tsx:26-54 | Box `[0, 0, 0.5, 0.5]` on page 1, with an 800×600 canvas at (100, 50) and the container at the origin, yields `{left: 100, top: 50, width: 400, height: 300}`. |
| `Pipeline.SearchableOverlayInsideCanvas` | next-app/src/components/BoundingBox.tsx:41-54 | A searchable record of words inside their pages is drawn with non-negative size inside the canvas. |
| `Pipeline.OcrOverlayInsideCanvas` | next-app/src/components/BoundingBox.tsx:41-54 | An OCR record whose boxes lie inside the page images is drawn with non-negative size inside the canvas. |

## Left out

- The PDF library, the OCR engine and the page rendering are inputs here. Searchable extraction gets each page's size and words. OCR gets each page's image size and the engine's arrays, or a failed page.
- Opening the document in `ocr_pdf` can fail. Its input `None` models that, and the result is then empty.
- The HTTP download with `requests.get`, the FastAPI routing, the `HTTPException` error path, CORS, logging and `/health` (`backend/main.py:2-22,85-93,103-109`) are I/O.
- `ExtractText` models `extract_text` from the point where the document has been downloaded.
- `Backend.ProcessSearchablePdf` and `Backend.ExtractText` require a positive width and height of every page that has a word. The source divides every word's coordinates by its page's size unguarded. A zero size on such a page raises out of `extract_text` (an HTTP 500), and that error path is not modelled. A page without words is never divided by and may have any size.
- The OCR pass models the same division by zero as an exception caught by its `try`.
- Floating-point rounding: coordinates are exact reals.
- Python's `/` on integers gives a float; it is modelled as exact real division.
- Document access with `querySelector` and `getBoundingClientRect` is replaced by the container's geometry as an input. Rendering the styled `div` (`BoundingBox.tsx:57-70`) is UI.
- The `bbox` prop is a four-number record. A JavaScript array with fewer than four entries, or a page number that is not an integer, is not modelled.
- The effect re-runs when its props change. This is modelled as a sequence of runs.
- The warnings logged on a failed lookup are not modelled.
- `next-app/src/pages/api/extract-pdf.ts` (a byte-forwarding proxy) is not part of this model.
- `index.tsx`, `PdfViewer.tsx`, `TranscriptPanel.tsx`, `TranscriptList.tsx` and `useResizeObserver.ts` are React UI and state wiring. They are not part of this model.
- Stream framing, deduplication, progress and the scale factor are absent from the source. They are not modelled.
