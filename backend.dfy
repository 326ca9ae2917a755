/**
 * The extraction backend: searchable-text extraction with page-normalised
 * coordinates, the OCR fallback, and the choice between the two.
 *
 * The PDF library and the OCR engine are not modelled; what they hand to the
 * backend is an input here. For searchable extraction that is the list of
 * pages, each with its size and its extracted words. For OCR it is, per page,
 * the rendered image's size and the engine's parallel arrays of texts and
 * boxes, or nothing when rendering or OCR of that page raised.
 */
module Backend {
  import opened Wrappers
  import opened Records
  import opened PyStrings

  // ---------------------------------------------------------------------
  // Searchable extraction
  // ---------------------------------------------------------------------

  /** One word as the PDF library reports it, in page units. */
  datatype Word = Word(text: string, x0: real, top: real, x1: real, bottom: real)

  /** One page: its width and height in page units and its words in reading order. */
  datatype Page = Page(width: real, height: real, words: seq<Word>)

  /**
   * Every page that has a word has a non-zero size: the source divides each
   * word's coordinates by its page's size unguarded, and a page without
   * words is never divided by.
   */
  predicate PositiveSizes(pages: seq<Page>) {
    forall p :: 0 <= p < |pages| && pages[p].words != [] ==> pages[p].width > 0.0 && pages[p].height > 0.0
  }

  /** The page's size may be divided by once there is a word to place. */
  predicate Divisible(page: Page, n: nat) {
    n > 0 ==> page.width > 0.0 && page.height > 0.0
  }

  /** Every word lies inside its page with its corners in order. */
  predicate WordsInsidePages(pages: seq<Page>) {
    forall p, j :: 0 <= p < |pages| && 0 <= j < |pages[p].words| ==>
      var w := pages[p].words[j];
      0.0 <= w.x0 <= w.x1 <= pages[p].width && 0.0 <= w.top <= w.bottom <= pages[p].height
  }

  /** The record built for the word `w` of page `page`, whose 1-based number is `pageNum`. */
  function WordRecord(w: Word, page: Page, pageNum: int): TextRecord
    requires page.width > 0.0 && page.height > 0.0
  {
    TextRecord(w.text, BBox(w.x0 / page.width, w.top / page.height,
                            w.x1 / page.width, w.bottom / page.height), pageNum)
  }

  /** The records of the first `n` words of `page`, in word order. */
  function PageRecords(page: Page, pageNum: int, n: nat): seq<TextRecord>
    requires Divisible(page, n)
    requires n <= |page.words|
  {
    if n == 0 then [] else PageRecords(page, pageNum, n - 1) + [WordRecord(page.words[n - 1], page, pageNum)]
  }

  /** The records of the first `n` pages, page after page. */
  function SearchableUpTo(pages: seq<Page>, n: nat): seq<TextRecord>
    requires PositiveSizes(pages)
    requires n <= |pages|
  {
    if n == 0 then []
    else SearchableUpTo(pages, n - 1) + PageRecords(pages[n - 1], n, |pages[n - 1].words|)
  }

  /** The whole result of searchable extraction. */
  function SearchableRecords(pages: seq<Page>): seq<TextRecord>
    requires PositiveSizes(pages)
  {
    SearchableUpTo(pages, |pages|)
  }

  /** The number of words on the first `n` pages. */
  function WordsBefore(pages: seq<Page>, n: nat): nat
    requires n <= |pages|
  {
    if n == 0 then 0 else WordsBefore(pages, n - 1) + |pages[n - 1].words|
  }

  /** `process_searchable_pdf`: one record per word, page by page. */
  method ProcessSearchablePdf(pages: seq<Page>) returns (textWithBboxes: seq<TextRecord>)
    requires PositiveSizes(pages)
    ensures textWithBboxes == SearchableRecords(pages)
  {
    textWithBboxes := [];
    var p := 0;
    while p < |pages|
      invariant 0 <= p <= |pages|
      invariant textWithBboxes == SearchableUpTo(pages, p)
    {
      var page := pages[p];
      var pageNumber := p + 1;
      var k := 0;
      while k < |page.words|
        invariant 0 <= k <= |page.words|
        invariant textWithBboxes == SearchableUpTo(pages, p) + PageRecords(page, pageNumber, k)
      {
        var w := page.words[k];
        var x0 := w.x0 / page.width;
        var y0 := w.top / page.height;
        var x1 := w.x1 / page.width;
        var y1 := w.bottom / page.height;
        textWithBboxes := textWithBboxes + [TextRecord(w.text, BBox(x0, y0, x1, y1), pageNumber)];
        k := k + 1;
      }
      p := p + 1;
    }
  }

  lemma {:induction false} PageRecordsAt(page: Page, pageNum: int, n: nat, j: nat)
    requires page.width > 0.0 && page.height > 0.0
    requires j < n <= |page.words|
    ensures |PageRecords(page, pageNum, n)| == n
    ensures PageRecords(page, pageNum, n)[j] == WordRecord(page.words[j], page, pageNum)
  {
    PageRecordsLength(page, pageNum, n - 1);
    if j < n - 1 {
      PageRecordsAt(page, pageNum, n - 1, j);
    }
  }

  lemma {:induction false} PageRecordsLength(page: Page, pageNum: int, n: nat)
    requires Divisible(page, n)
    requires n <= |page.words|
    ensures |PageRecords(page, pageNum, n)| == n
  {
    if n > 0 {
      PageRecordsLength(page, pageNum, n - 1);
    }
  }

  lemma {:induction false} SearchableUpToLength(pages: seq<Page>, n: nat)
    requires PositiveSizes(pages)
    requires n <= |pages|
    ensures |SearchableUpTo(pages, n)| == WordsBefore(pages, n)
  {
    if n > 0 {
      SearchableUpToLength(pages, n - 1);
      PageRecordsLength(pages[n - 1], n, |pages[n - 1].words|);
    }
  }

  lemma {:induction false} SearchableUpToAt(pages: seq<Page>, n: nat, p: nat, j: nat)
    requires PositiveSizes(pages)
    requires p < n <= |pages| && j < |pages[p].words|
    ensures WordsBefore(pages, p) + j < |SearchableUpTo(pages, n)|
    ensures SearchableUpTo(pages, n)[WordsBefore(pages, p) + j]
            == WordRecord(pages[p].words[j], pages[p], p + 1)
  {
    SearchableUpToLength(pages, n - 1);
    PageRecordsLength(pages[n - 1], n, |pages[n - 1].words|);
    if p == n - 1 {
      PageRecordsAt(pages[p], p + 1, |pages[p].words|, j);
    } else {
      SearchableUpToAt(pages, n - 1, p, j);
      WordsBeforeMonotone(pages, p + 1, n - 1);
    }
  }

  lemma {:induction false} WordsBeforeMonotone(pages: seq<Page>, m: nat, n: nat)
    requires m <= n <= |pages|
    ensures WordsBefore(pages, m) <= WordsBefore(pages, n)
  {
    if m < n {
      WordsBeforeMonotone(pages, m, n - 1);
    }
  }

  /**
   * Exactly one record per extracted word, in page order and then word
   * order: the record for word `j` of page `p` sits at position
   * (words on earlier pages) + `j`, carries the word's text unchanged, the
   * 1-based page number `p + 1`, and the box divided by the page's size.
   */
  lemma SearchableOnePerWord(pages: seq<Page>, p: nat, j: nat)
    requires PositiveSizes(pages)
    requires p < |pages| && j < |pages[p].words|
    ensures |SearchableRecords(pages)| == WordsBefore(pages, |pages|)
    ensures WordsBefore(pages, p) + j < WordsBefore(pages, p + 1) <= WordsBefore(pages, |pages|)
    ensures var r := SearchableRecords(pages)[WordsBefore(pages, p) + j];
            var w := pages[p].words[j];
            && r.text == w.text
            && r.pageNum == p + 1
            && r.bbox == BBox(w.x0 / pages[p].width, w.top / pages[p].height,
                              w.x1 / pages[p].width, w.bottom / pages[p].height)
  {
    SearchableUpToLength(pages, |pages|);
    SearchableUpToAt(pages, |pages|, p, j);
    WordsBeforeMonotone(pages, p + 1, |pages|);
  }

  /** Searchable extraction yields nothing exactly when no page has a word. */
  lemma SearchableEmptyIff(pages: seq<Page>)
    requires PositiveSizes(pages)
    ensures SearchableRecords(pages) == [] <==> forall p :: 0 <= p < |pages| ==> pages[p].words == []
  {
    SearchableUpToLength(pages, |pages|);
    WordsBeforeZero(pages, |pages|);
  }

  lemma {:induction false} WordsBeforeZero(pages: seq<Page>, n: nat)
    requires n <= |pages|
    ensures WordsBefore(pages, n) == 0 <==> forall p :: 0 <= p < n ==> pages[p].words == []
  {
    if n > 0 {
      WordsBeforeZero(pages, n - 1);
    }
  }

  /**
   * The "[0..1]" promise: when every word lies inside its page, every
   * normalised box is inside the unit square with ordered corners.
   */
  lemma SearchableInUnit(pages: seq<Page>)
    requires PositiveSizes(pages)
    requires WordsInsidePages(pages)
    ensures forall r :: r in SearchableRecords(pages) ==> InUnit(r.bbox)
  {
    SearchableUpToInUnit(pages, |pages|);
  }

  lemma {:induction false} SearchableUpToInUnit(pages: seq<Page>, n: nat)
    requires PositiveSizes(pages)
    requires WordsInsidePages(pages)
    requires n <= |pages|
    ensures forall r :: r in SearchableUpTo(pages, n) ==> InUnit(r.bbox)
  {
    if n > 0 {
      SearchableUpToInUnit(pages, n - 1);
      PageRecordsInUnit(pages, n - 1, |pages[n - 1].words|);
    }
  }

  lemma {:induction false} PageRecordsInUnit(pages: seq<Page>, p: nat, k: nat)
    requires PositiveSizes(pages)
    requires WordsInsidePages(pages)
    requires p < |pages| && k <= |pages[p].words|
    ensures forall r :: r in PageRecords(pages[p], p + 1, k) ==> InUnit(r.bbox)
  {
    if k > 0 {
      PageRecordsInUnit(pages, p, k - 1);
      var page := pages[p];
      var w := page.words[k - 1];
      assert 0.0 <= w.x0 <= w.x1 <= page.width && 0.0 <= w.top <= w.bottom <= page.height;
      FractionInUnit(w.x0, w.x1, page.width);
      FractionInUnit(w.top, w.bottom, page.height);
    }
  }

  lemma FractionInUnit(a: real, b: real, d: real)
    requires d > 0.0 && 0.0 <= a <= b <= d
    ensures 0.0 <= a / d <= b / d <= 1.0
  {
  }

  // ---------------------------------------------------------------------
  // OCR
  // ---------------------------------------------------------------------

  /** The OCR engine's output for one page image: five parallel arrays. */
  datatype OcrData = OcrData(text: seq<string>, left: seq<int>, top: seq<int>,
                             width: seq<int>, height: seq<int>)

  /**
   * One page of the OCR pass: either its rendered image's size in pixels
   * and the OCR engine's output for it, or a page whose rendering or OCR
   * raised.
   */
  datatype OcrPage =
    | Recognised(imgWidth: nat, imgHeight: nat, data: OcrData)
    | PageFailed

  /** What one OCR entry contributes: nothing, a record, or an exception. */
  datatype Step = Skip | Emit(record: TextRecord) | Raise

  /**
   * Entry `i` of a page: blank text (after stripping) is skipped; otherwise
   * reading a box array past its end (IndexError) or dividing by a zero
   * image size (ZeroDivisionError) raises; otherwise the entry becomes a
   * record with the stripped text and the box divided by the image size.
   */
  function OcrStep(imgWidth: nat, imgHeight: nat, data: OcrData, pageNum: int, i: nat): (s: Step)
    requires i < |data.text|
    ensures s.Skip? <==> Strip(data.text[i]) == []
    ensures s.Raise? <==> Strip(data.text[i]) != []
                          && (i >= |data.left| || i >= |data.top| || i >= |data.width| || i >= |data.height|
                              || imgWidth == 0 || imgHeight == 0)
    ensures s.Emit? ==> s.record.text == Strip(data.text[i]) && s.record.pageNum == pageNum
  {
    var text := Strip(data.text[i]);
    if text == [] then Skip
    else if i >= |data.left| || i >= |data.top| || i >= |data.width| || i >= |data.height|
            || imgWidth == 0 || imgHeight == 0 then Raise
    else
      var left, top := data.left[i], data.top[i];
      var width, height := data.width[i], data.height[i];
      Emit(TextRecord(text, BBox(left as real / imgWidth as real, top as real / imgHeight as real,
                                 (left + width) as real / imgWidth as real,
                                 (top + height) as real / imgHeight as real), pageNum))
  }

  /** Scaling an emitted box back by the image size gives the engine's pixel box again. */
  lemma OcrStepDenormalises(imgWidth: nat, imgHeight: nat, data: OcrData, pageNum: int, i: nat)
    requires i < |data.text| && OcrStep(imgWidth, imgHeight, data, pageNum, i).Emit?
    ensures i < |data.left| && i < |data.top| && i < |data.width| && i < |data.height|
    ensures var b := OcrStep(imgWidth, imgHeight, data, pageNum, i).record.bbox;
      && b.x0 * imgWidth as real == data.left[i] as real
      && b.y0 * imgHeight as real == data.top[i] as real
      && (b.x1 - b.x0) * imgWidth as real == data.width[i] as real
      && (b.y1 - b.y0) * imgHeight as real == data.height[i] as real
  {
    var w, h := imgWidth as real, imgHeight as real;
    var left, top := data.left[i] as real, data.top[i] as real;
    var right, bottom := (data.left[i] + data.width[i]) as real, (data.top[i] + data.height[i]) as real;
    var b := OcrStep(imgWidth, imgHeight, data, pageNum, i).record.bbox;
    assert b == BBox(left / w, top / h, right / w, bottom / h);
    assert (right / w - left / w) * w == right - left;
    assert (bottom / h - top / h) * h == bottom - top;
  }

  /** The records accumulated so far, and whether an exception ended the pass. */
  datatype Run = Run(records: seq<TextRecord>, raised: bool)

  /**
   * The run after one more step: an emitted record is appended, a raise
   * ends it. The records are unchanged or have grown by the emitted record,
   * they grow whenever a live run meets an emitting step, and once the run
   * has raised nothing changes.
   */
  function AfterStep(r: Run, s: Step): (next: Run)
    ensures next.records == r.records || (s.Emit? && next.records == r.records + [s.record])
    ensures !r.raised && s.Emit? ==> next.records == r.records + [s.record]
    ensures next.raised <==> r.raised || s.Raise?
    ensures r.raised ==> next == r
  {
    if r.raised then r
    else match s
      case Skip => r
      case Emit(rec) => Run(r.records + [rec], false)
      case Raise => Run(r.records, true)
  }

  /** The pass over the first `n` entries of one page. */
  function PageRun(imgWidth: nat, imgHeight: nat, data: OcrData, pageNum: int, n: nat): Run
    requires n <= |data.text|
  {
    if n == 0 then Run([], false)
    else AfterStep(PageRun(imgWidth, imgHeight, data, pageNum, n - 1),
                   OcrStep(imgWidth, imgHeight, data, pageNum, n - 1))
  }

  /**
   * The run after one more page: a failed page raises, a recognised one adds
   * its pass. The records are unchanged or have grown by that pass, a run
   * that did not raise has rendered the page, a live run over a rendered
   * page raises exactly when that page's pass does, and once the run has
   * raised nothing changes.
   */
  function AfterPage(r: Run, page: OcrPage, pageNum: int): (next: Run)
    ensures next.records == r.records
            || (page.Recognised?
                && next.records == r.records + PageRun(page.imgWidth, page.imgHeight, page.data, pageNum, |page.data.text|).records)
    ensures !next.raised ==> !r.raised && page.Recognised?
    ensures !r.raised && page.Recognised? ==>
      next.raised == PageRun(page.imgWidth, page.imgHeight, page.data, pageNum, |page.data.text|).raised
    ensures r.raised ==> next == r
  {
    if r.raised then r
    else match page
      case PageFailed => Run(r.records, true)
      case Recognised(w, h, data) =>
        var pr := PageRun(w, h, data, pageNum, |data.text|);
        Run(r.records + pr.records, pr.raised)
  }

  /**
   * The pass over the first `n` pages. When it ends without an exception
   * every one of those pages was rendered.
   */
  function DocRun(pages: seq<OcrPage>, n: nat): (r: Run)
    requires n <= |pages|
    ensures !r.raised ==> forall p :: 0 <= p < n ==> pages[p].Recognised?
  {
    if n == 0 then Run([], false) else AfterPage(DocRun(pages, n - 1), pages[n - 1], n)
  }

  /** What `ocr_pdf` returns; `None` stands for a document that could not be opened. */
  function OcrRecords(pdf: Option<seq<OcrPage>>): seq<TextRecord> {
    match pdf
    case None => []
    case Some(pages) => DocRun(pages, |pages|).records
  }

  /** `ocr_pdf`: a record per non-blank OCR entry; on an exception, what was built so far. */
  method OcrPdf(pdf: Option<seq<OcrPage>>) returns (ocrResults: seq<TextRecord>)
    ensures ocrResults == OcrRecords(pdf)
  {
    ocrResults := [];
    if pdf.None? {
      return;
    }
    var pages := pdf.value;
    var p := 0;
    while p < |pages|
      invariant 0 <= p <= |pages|
      invariant DocRun(pages, p) == Run(ocrResults, false)
    {
      if pages[p].PageFailed? {
        assert DocRun(pages, p + 1) == Run(ocrResults, true);
        DocRunStaysRaised(pages, p + 1, |pages|);
        return;
      }
      var pageResults, raised := RecognisePage(pages[p].imgWidth, pages[p].imgHeight, pages[p].data, p + 1);
      ocrResults := ocrResults + pageResults;
      if raised {
        DocRunStaysRaised(pages, p + 1, |pages|);
        return;
      }
      p := p + 1;
    }
  }

  /**
   * The loop over one page's OCR entries; `raised` is true when an exception
   * left it early, and `pageResults` are then the records built before it.
   */
  method RecognisePage(imgWidth: nat, imgHeight: nat, data: OcrData, pageNumber: int)
    returns (pageResults: seq<TextRecord>, raised: bool)
    ensures Run(pageResults, raised) == PageRun(imgWidth, imgHeight, data, pageNumber, |data.text|)
  {
    pageResults := [];
    var i := 0;
    while i < |data.text|
      invariant 0 <= i <= |data.text|
      invariant PageRun(imgWidth, imgHeight, data, pageNumber, i) == Run(pageResults, false)
    {
      var text := Strip(data.text[i]);
      if text != [] {
        if i >= |data.left| || i >= |data.top| || i >= |data.width| || i >= |data.height|
           || imgWidth == 0 || imgHeight == 0 {
          PageRunStaysRaised(imgWidth, imgHeight, data, pageNumber, i + 1, |data.text|);
          return pageResults, true;
        }
        var left := data.left[i];
        var top := data.top[i];
        var width := data.width[i];
        var height := data.height[i];
        var x0 := left as real / imgWidth as real;
        var y0 := top as real / imgHeight as real;
        var x1 := (left + width) as real / imgWidth as real;
        var y1 := (top + height) as real / imgHeight as real;
        pageResults := pageResults + [TextRecord(text, BBox(x0, y0, x1, y1), pageNumber)];
      }
      i := i + 1;
    }
    raised := false;
  }

  lemma {:induction false} PageRunStaysRaised(imgWidth: nat, imgHeight: nat, data: OcrData, pageNum: int, m: nat, n: nat)
    requires m <= n <= |data.text|
    requires PageRun(imgWidth, imgHeight, data, pageNum, m).raised
    ensures PageRun(imgWidth, imgHeight, data, pageNum, n) == PageRun(imgWidth, imgHeight, data, pageNum, m)
  {
    if m < n {
      PageRunStaysRaised(imgWidth, imgHeight, data, pageNum, m, n - 1);
      var r := PageRun(imgWidth, imgHeight, data, pageNum, n - 1);
      var s := OcrStep(imgWidth, imgHeight, data, pageNum, n - 1);
      assert PageRun(imgWidth, imgHeight, data, pageNum, n) == AfterStep(r, s);
    }
  }

  /** Once an exception is raised nothing more is added: later pages are never looked at. */
  lemma {:induction false} DocRunStaysRaised(pages: seq<OcrPage>, m: nat, n: nat)
    requires m <= n <= |pages|
    requires DocRun(pages, m).raised
    ensures DocRun(pages, n) == DocRun(pages, m)
  {
    if m < n {
      DocRunStaysRaised(pages, m, n - 1);
    }
  }

  /** Appending pages never takes records away: the run over `m` pages is a prefix of the run over `n`. */
  lemma {:induction false} DocRunPrefix(pages: seq<OcrPage>, m: nat, n: nat)
    requires m <= n <= |pages|
    ensures DocRun(pages, m).records <= DocRun(pages, n).records
  {
    if m < n {
      DocRunPrefix(pages, m, n - 1);
    }
  }

  // --- what every OCR record looks like ------------------------------------

  /** Every box array entry that exists has a non-negative width and height. */
  predicate NonNegativeSizes(pages: seq<OcrPage>) {
    && (forall p, i :: 0 <= p < |pages| && pages[p].Recognised? && 0 <= i < |pages[p].data.width| ==>
          pages[p].data.width[i] >= 0)
    && (forall p, i :: 0 <= p < |pages| && pages[p].Recognised? && 0 <= i < |pages[p].data.height| ==>
          pages[p].data.height[i] >= 0)
  }

  /** The box of entry `i` lies inside the page image. */
  predicate EntryInsideImage(imgWidth: nat, imgHeight: nat, data: OcrData, i: nat)
    requires i < |data.left| && i < |data.top| && i < |data.width| && i < |data.height|
  {
    && 0 <= data.left[i] && 0 <= data.width[i] && data.left[i] + data.width[i] <= imgWidth
    && 0 <= data.top[i] && 0 <= data.height[i] && data.top[i] + data.height[i] <= imgHeight
  }

  /** Every box the OCR engine reports lies inside its page image. */
  predicate BoxesInsideImages(pages: seq<OcrPage>) {
    forall p, i :: 0 <= p < |pages| && pages[p].Recognised? && 0 <= i < |pages[p].data.left|
                   && i < |pages[p].data.top| && i < |pages[p].data.width| && i < |pages[p].data.height| ==>
      EntryInsideImage(pages[p].imgWidth, pages[p].imgHeight, pages[p].data, i)
  }

  /** What holds of each OCR record of a document of `pages`. */
  predicate GoodOcrRecord(r: TextRecord, pages: seq<OcrPage>) {
    && r.text != [] && !IsSpace(r.text[0]) && !IsSpace(r.text[|r.text| - 1])
    && 1 <= r.pageNum <= |pages|
    && (NonNegativeSizes(pages) ==> Ordered(r.bbox))
    && (BoxesInsideImages(pages) ==> InUnit(r.bbox))
  }

  lemma DivMonotone(a: real, b: real, d: real)
    requires d > 0.0 && a <= b
    ensures a / d <= b / d
  {
  }

  lemma {:induction false} PageRunGood(pages: seq<OcrPage>, p: nat, n: nat)
    requires p < |pages| && pages[p].Recognised? && n <= |pages[p].data.text|
    ensures var page := pages[p];
      forall r :: r in PageRun(page.imgWidth, page.imgHeight, page.data, p + 1, n).records ==> GoodOcrRecord(r, pages)
  {
    if n > 0 {
      var page := pages[p];
      var w, h, data := page.imgWidth, page.imgHeight, page.data;
      PageRunGood(pages, p, n - 1);
      var i := n - 1;
      var step := OcrStep(w, h, data, p + 1, i);
      if step.Emit? && !PageRun(w, h, data, p + 1, i).raised {
        var r := step.record;
        var left, top, width, height := data.left[i], data.top[i], data.width[i], data.height[i];
        assert r.bbox == BBox(left as real / w as real, top as real / h as real,
                              (left + width) as real / w as real, (top + height) as real / h as real);
        if NonNegativeSizes(pages) {
          assert width >= 0 && height >= 0;
          DivMonotone(left as real, (left + width) as real, w as real);
          DivMonotone(top as real, (top + height) as real, h as real);
        }
        if BoxesInsideImages(pages) {
          assert EntryInsideImage(w, h, data, i);
          FractionInUnit(left as real, (left + width) as real, w as real);
          FractionInUnit(top as real, (top + height) as real, h as real);
        }
        assert GoodOcrRecord(r, pages);
      }
    }
  }

  lemma {:induction false} DocRunGood(pages: seq<OcrPage>, n: nat)
    requires n <= |pages|
    ensures forall r :: r in DocRun(pages, n).records ==> GoodOcrRecord(r, pages)
  {
    if n > 0 {
      DocRunGood(pages, n - 1);
      if pages[n - 1].Recognised? {
        PageRunGood(pages, n - 1, |pages[n - 1].data.text|);
      }
    }
  }

  /**
   * Every OCR record has non-blank, stripped text and a 1-based page number
   * of the document; its box has ordered corners when the engine's box sizes
   * are non-negative, and lies in the unit square when its boxes lie inside
   * the page images.
   */
  lemma OcrRecordsGood(pages: seq<OcrPage>)
    ensures forall r :: r in OcrRecords(Some(pages)) ==> GoodOcrRecord(r, pages)
  {
    DocRunGood(pages, |pages|);
  }

  /** The number of OCR entries on the first `n` pages. */
  function EntriesBefore(pages: seq<OcrPage>, n: nat): nat
    requires n <= |pages|
  {
    if n == 0 then 0
    else EntriesBefore(pages, n - 1) + (if pages[n - 1].Recognised? then |pages[n - 1].data.text| else 0)
  }

  lemma {:induction false} PageRunCount(imgWidth: nat, imgHeight: nat, data: OcrData, pageNum: int, n: nat)
    requires n <= |data.text|
    ensures |PageRun(imgWidth, imgHeight, data, pageNum, n).records| <= n
  {
    if n > 0 {
      PageRunCount(imgWidth, imgHeight, data, pageNum, n - 1);
    }
  }

  lemma {:induction false} DocRunCount(pages: seq<OcrPage>, n: nat)
    requires n <= |pages|
    ensures |DocRun(pages, n).records| <= EntriesBefore(pages, n)
  {
    if n > 0 {
      DocRunCount(pages, n - 1);
      if pages[n - 1].Recognised? {
        var page := pages[n - 1];
        PageRunCount(page.imgWidth, page.imgHeight, page.data, n, |page.data.text|);
      }
    }
  }

  /** Skipping blank entries: at most one record per OCR entry. */
  lemma OcrCountBound(pages: seq<OcrPage>)
    ensures |OcrRecords(Some(pages))| <= EntriesBefore(pages, |pages|)
  {
    DocRunCount(pages, |pages|);
  }

  // --- the reference: what the entries yield up to the first exception ------

  /** Entry `i` does not raise: it is blank, or its boxes exist and the image has a non-zero size. */
  predicate EntryOk(imgWidth: nat, imgHeight: nat, data: OcrData, i: nat)
    requires i < |data.text|
  {
    || Strip(data.text[i]) == []
    || (&& i < |data.left| && i < |data.top| && i < |data.width| && i < |data.height|
        && imgWidth > 0 && imgHeight > 0)
  }

  /** None of the first `n` entries raises. */
  predicate EntriesOk(imgWidth: nat, imgHeight: nat, data: OcrData, n: nat)
    requires n <= |data.text|
  {
    forall j :: 0 <= j < n ==> EntryOk(imgWidth, imgHeight, data, j)
  }

  /**
   * The record entry `i` stands for: none if its text is blank (or if it
   * has no box or the image no size), else the stripped text with the box
   * divided by the image size.
   */
  function EntryRecords(imgWidth: nat, imgHeight: nat, data: OcrData, pageNum: int, i: nat): seq<TextRecord>
    requires i < |data.text|
  {
    var text := Strip(data.text[i]);
    var w, h := imgWidth as real, imgHeight as real;
    if text == [] || i >= |data.left| || i >= |data.top| || i >= |data.width| || i >= |data.height|
       || imgWidth == 0 || imgHeight == 0 then []
    else [TextRecord(text, BBox(data.left[i] as real / w, data.top[i] as real / h,
                                (data.left[i] + data.width[i]) as real / w,
                                (data.top[i] + data.height[i]) as real / h), pageNum)]
  }

  /** The records of entries `i..n`, in entry order. */
  function Ref(imgWidth: nat, imgHeight: nat, data: OcrData, pageNum: int, i: nat, n: nat): seq<TextRecord>
    requires i <= n <= |data.text|
    decreases n - i
  {
    if i == n then []
    else EntryRecords(imgWidth, imgHeight, data, pageNum, i) + Ref(imgWidth, imgHeight, data, pageNum, i + 1, n)
  }

  /** A page on which nothing raises: it was rendered and none of its entries raises. */
  predicate HealthyPage(page: OcrPage) {
    page.Recognised? && EntriesOk(page.imgWidth, page.imgHeight, page.data, |page.data.text|)
  }

  /** Nothing raises on the first `n` pages. */
  predicate HealthyUpTo(pages: seq<OcrPage>, n: nat) {
    forall p :: 0 <= p < n && p < |pages| ==> HealthyPage(pages[p])
  }

  /** Nothing raises on any page. */
  predicate Healthy(pages: seq<OcrPage>) {
    HealthyUpTo(pages, |pages|)
  }

  /** The records of a healthy page, numbered `pageNum`. */
  function PageReference(page: OcrPage, pageNum: int): seq<TextRecord>
    requires HealthyPage(page)
  {
    Ref(page.imgWidth, page.imgHeight, page.data, pageNum, 0, |page.data.text|)
  }

  /** The records of the healthy first `n` pages, page after page, numbered from 1. */
  function DocReference(pages: seq<OcrPage>, n: nat): seq<TextRecord>
    requires n <= |pages| && HealthyUpTo(pages, n)
  {
    if n == 0 then [] else DocReference(pages, n - 1) + PageReference(pages[n - 1], n)
  }

  /** The right fold `Ref` gains entry `n` at its end. */
  lemma {:induction false} RefSnoc(imgWidth: nat, imgHeight: nat, data: OcrData, pageNum: int, i: nat, n: nat)
    requires i <= n < |data.text|
    ensures Ref(imgWidth, imgHeight, data, pageNum, i, n + 1)
            == Ref(imgWidth, imgHeight, data, pageNum, i, n) + EntryRecords(imgWidth, imgHeight, data, pageNum, n)
    decreases n - i
  {
    if i < n {
      RefSnoc(imgWidth, imgHeight, data, pageNum, i + 1, n);
      var e := EntryRecords(imgWidth, imgHeight, data, pageNum, i);
      var mid := Ref(imgWidth, imgHeight, data, pageNum, i + 1, n);
      var last := EntryRecords(imgWidth, imgHeight, data, pageNum, n);
      assert e + (mid + last) == e + mid + last;
    }
  }

  /** An entry raises exactly when it is not `EntryOk`; otherwise it emits exactly its `EntryRecords`. */
  lemma OcrStepMatchesEntry(imgWidth: nat, imgHeight: nat, data: OcrData, pageNum: int, i: nat)
    requires i < |data.text|
    ensures var s := OcrStep(imgWidth, imgHeight, data, pageNum, i);
      && (s.Raise? <==> !EntryOk(imgWidth, imgHeight, data, i))
      && (!s.Raise? ==> EntryRecords(imgWidth, imgHeight, data, pageNum, i) == (if s.Emit? then [s.record] else []))
  {
  }

  /** Before any entry raises, the page's pass has built exactly the reference of those entries. */
  lemma {:induction false} PageRunBeforeRaise(imgWidth: nat, imgHeight: nat, data: OcrData, pageNum: int, n: nat)
    requires n <= |data.text| && EntriesOk(imgWidth, imgHeight, data, n)
    ensures PageRun(imgWidth, imgHeight, data, pageNum, n) == Run(Ref(imgWidth, imgHeight, data, pageNum, 0, n), false)
  {
    if n > 0 {
      RefSnoc(imgWidth, imgHeight, data, pageNum, 0, n - 1);
      PageRunBeforeRaise(imgWidth, imgHeight, data, pageNum, n - 1);
      OcrStepMatchesEntry(imgWidth, imgHeight, data, pageNum, n - 1);
      var r := PageRun(imgWidth, imgHeight, data, pageNum, n - 1);
      var s := OcrStep(imgWidth, imgHeight, data, pageNum, n - 1);
      assert PageRun(imgWidth, imgHeight, data, pageNum, n) == AfterStep(r, s);
    }
  }

  /**
   * When entry `n` is the first to raise, the page's pass ends raised with
   * exactly the reference of the entries before it.
   */
  lemma PageRunFirstRaise(imgWidth: nat, imgHeight: nat, data: OcrData, pageNum: int, n: nat)
    requires n < |data.text| && EntriesOk(imgWidth, imgHeight, data, n) && !EntryOk(imgWidth, imgHeight, data, n)
    ensures PageRun(imgWidth, imgHeight, data, pageNum, |data.text|)
            == Run(Ref(imgWidth, imgHeight, data, pageNum, 0, n), true)
  {
    PageRunBeforeRaise(imgWidth, imgHeight, data, pageNum, n);
    OcrStepMatchesEntry(imgWidth, imgHeight, data, pageNum, n);
    assert PageRun(imgWidth, imgHeight, data, pageNum, n + 1).raised;
    PageRunStaysRaised(imgWidth, imgHeight, data, pageNum, n + 1, |data.text|);
  }

  /** One more healthy page appends exactly its reference and does not raise. */
  lemma DocRunHealthyStep(pages: seq<OcrPage>, n: nat)
    requires 0 < n <= |pages| && !DocRun(pages, n - 1).raised && HealthyPage(pages[n - 1])
    ensures DocRun(pages, n) == Run(DocRun(pages, n - 1).records + PageReference(pages[n - 1], n), false)
  {
    var page := pages[n - 1];
    PageRunBeforeRaise(page.imgWidth, page.imgHeight, page.data, n, |page.data.text|);
  }

  /** On healthy first pages `..n` the pass has built exactly their reference and not raised. */
  lemma {:induction false} DocRunMatchesReference(pages: seq<OcrPage>, n: nat)
    requires n <= |pages| && HealthyUpTo(pages, n)
    ensures DocRun(pages, n) == Run(DocReference(pages, n), false)
  {
    if n > 0 {
      DocRunMatchesReference(pages, n - 1);
      assert HealthyPage(pages[n - 1]);
      DocRunHealthyStep(pages, n);
    }
  }

  /** When nothing raises, `ocr_pdf` returns exactly the stripped non-blank entries, page by page. */
  lemma OcrHealthyMatchesReference(pages: seq<OcrPage>)
    requires Healthy(pages)
    ensures OcrRecords(Some(pages)) == DocReference(pages, |pages|)
  {
    DocRunMatchesReference(pages, |pages|);
  }

  /**
   * Partial results: whatever happens on later pages, the fault-free result
   * of any healthy leading run of pages is a prefix of what `ocr_pdf` returns.
   */
  lemma OcrKeepsHealthyPrefix(pages: seq<OcrPage>, k: nat)
    requires k <= |pages| && HealthyUpTo(pages, k)
    ensures DocReference(pages, k) <= OcrRecords(Some(pages))
  {
    DocRunMatchesReference(pages, k);
    DocRunPrefix(pages, k, |pages|);
  }

  /**
   * A page that cannot be rendered after healthy pages `..k`: the result is
   * exactly those pages' records, and nothing from this page or later ones.
   */
  lemma OcrStopsAtFailedPage(pages: seq<OcrPage>, k: nat)
    requires k < |pages| && HealthyUpTo(pages, k) && pages[k].PageFailed?
    ensures OcrRecords(Some(pages)) == DocReference(pages, k)
  {
    DocRunMatchesReference(pages, k);
    assert DocRun(pages, k + 1) == Run(DocReference(pages, k), true);
    DocRunStaysRaised(pages, k + 1, |pages|);
  }

  /**
   * Entry `n` of page `k` is the first to raise, after healthy pages `..k`:
   * the result is exactly those pages' records followed by the records of
   * page `k`'s entries before `n`, and nothing after.
   */
  lemma OcrStopsMidPage(pages: seq<OcrPage>, k: nat, n: nat)
    requires k < |pages| && HealthyUpTo(pages, k) && pages[k].Recognised?
    requires n < |pages[k].data.text|
    requires EntriesOk(pages[k].imgWidth, pages[k].imgHeight, pages[k].data, n)
    requires !EntryOk(pages[k].imgWidth, pages[k].imgHeight, pages[k].data, n)
    ensures OcrRecords(Some(pages))
            == DocReference(pages, k) + Ref(pages[k].imgWidth, pages[k].imgHeight, pages[k].data, k + 1, 0, n)
  {
    var page := pages[k];
    DocRunMatchesReference(pages, k);
    PageRunFirstRaise(page.imgWidth, page.imgHeight, page.data, k + 1, n);
    assert DocRun(pages, k + 1)
        == Run(DocReference(pages, k) + Ref(page.imgWidth, page.imgHeight, page.data, k + 1, 0, n), true);
    DocRunStaysRaised(pages, k + 1, |pages|);
  }

  /**
   * A 100 by 100 image whose engine reports the texts "a" and "b" but boxes
   * for the first only: reading the second box raises, and the record of
   * "a" built before it is returned.
   */
  lemma OcrMidPageExample()
    ensures OcrRecords(Some([Recognised(100, 100, OcrData(["a", "b"], [10], [20], [30], [40]))]))
            == [TextRecord("a", BBox(0.1, 0.2, 0.4, 0.6), 1)]
  {
    var data := OcrData(["a", "b"], [10], [20], [30], [40]);
    var pages := [Recognised(100, 100, data)];
    assert Strip("a") == "a" && Strip("b") == "b";
    assert EntryOk(100, 100, data, 0) && !EntryOk(100, 100, data, 1);
    OcrStopsMidPage(pages, 0, 1);
    assert Ref(100, 100, data, 1, 0, 1) == EntryRecords(100, 100, data, 1, 0);
  }

  /** If some of the first `m` entries raises, there is a first one. */
  lemma {:induction false} FirstRaisingEntry(imgWidth: nat, imgHeight: nat, data: OcrData, m: nat)
    requires m <= |data.text| && !EntriesOk(imgWidth, imgHeight, data, m)
    ensures exists n :: 0 <= n < m && EntriesOk(imgWidth, imgHeight, data, n) && !EntryOk(imgWidth, imgHeight, data, n)
  {
    if EntriesOk(imgWidth, imgHeight, data, m - 1) {
      assert !EntryOk(imgWidth, imgHeight, data, m - 1);
    } else {
      FirstRaisingEntry(imgWidth, imgHeight, data, m - 1);
    }
  }

  /** If some of the first `m` pages is not healthy, there is a first one. */
  lemma {:induction false} FirstFaultyPage(pages: seq<OcrPage>, m: nat)
    requires m <= |pages| && !HealthyUpTo(pages, m)
    ensures exists k :: 0 <= k < m && HealthyUpTo(pages, k) && !HealthyPage(pages[k])
  {
    if HealthyUpTo(pages, m - 1) {
      assert !HealthyPage(pages[m - 1]);
    } else {
      FirstFaultyPage(pages, m - 1);
    }
  }

  /**
   * Every document falls under `OcrHealthyMatchesReference`,
   * `OcrStopsAtFailedPage` or `OcrStopsMidPage`: nothing
   * raises, or after healthy pages `..k` page `k` cannot be rendered, or its
   * entry `n` is the first to raise.
   */
  lemma OcrCasesExhaustive(pages: seq<OcrPage>)
    ensures || Healthy(pages)
            || (exists k :: 0 <= k < |pages| && HealthyUpTo(pages, k) && pages[k].PageFailed?)
            || (exists k, n :: && 0 <= k < |pages| && HealthyUpTo(pages, k) && pages[k].Recognised?
                               && 0 <= n < |pages[k].data.text|
                               && EntriesOk(pages[k].imgWidth, pages[k].imgHeight, pages[k].data, n)
                               && !EntryOk(pages[k].imgWidth, pages[k].imgHeight, pages[k].data, n))
  {
    if !Healthy(pages) {
      FirstFaultyPage(pages, |pages|);
      var k :| 0 <= k < |pages| && HealthyUpTo(pages, k) && !HealthyPage(pages[k]);
      if pages[k].Recognised? {
        var page := pages[k];
        FirstRaisingEntry(page.imgWidth, page.imgHeight, page.data, |page.data.text|);
      }
    }
  }

  // ---------------------------------------------------------------------
  // extract_text
  // ---------------------------------------------------------------------

  /**
   * The body of `extract_text` once the document is downloaded: searchable
   * extraction first, and OCR only when that found no word at all.
   */
  method ExtractText(pages: seq<Page>, ocrPdf: Option<seq<OcrPage>>) returns (extractedData: seq<TextRecord>)
    requires PositiveSizes(pages)
    ensures (exists p :: 0 <= p < |pages| && pages[p].words != []) ==> extractedData == SearchableRecords(pages)
    ensures (forall p :: 0 <= p < |pages| ==> pages[p].words == []) ==> extractedData == OcrRecords(ocrPdf)
  {
    var result := ProcessSearchablePdf(pages);
    SearchableEmptyIff(pages);
    if result == [] {
      result := OcrPdf(ocrPdf);
    }
    extractedData := result;
  }
}
