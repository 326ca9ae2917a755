/**
 * The highlight overlay of the PDF viewer: where a normalised box of a
 * page is drawn, relative to the viewer's container.
 *
 * On every run of its effect the component looks up the container, the
 * page layer of the selected page and the canvas inside that layer. When all
 * three exist it projects the box onto the canvas and stores the result,
 * expressed relative to the container, as its position. When one is missing
 * it keeps the position it had. Reading the document's geometry becomes an
 * input: the container's rectangle and, per page-layer index, the canvas
 * rectangle if one was rendered.
 */
module BoundingBox {
  import opened Wrappers
  import opened Records

  /** A rectangle as a bounding-rect query reports it, and also the component's position state. */
  datatype Rect = Rect(left: real, top: real, width: real, height: real)

  /** A page layer and the canvas rendered inside it, if any. */
  datatype PageLayer = PageLayer(canvas: Option<Rect>)

  /** The viewer's container: its own rectangle and its page layers, keyed by zero-based page index. */
  datatype Container = Container(rect: Rect, pageLayers: map<int, PageLayer>)

  /** The position before any successful run of the effect. */
  const InitialPosition: Rect := Rect(0.0, 0.0, 0.0, 0.0)

  /** `r` moved by `(dx, dy)`. */
  function Translate(r: Rect, dx: real, dy: real): Rect {
    Rect(r.left + dx, r.top + dy, r.width, r.height)
  }

  /** The part of `canvas` that the normalised box `b` covers, in the canvas's own coordinates. */
  function Region(b: BBox, canvas: Rect): Rect {
    Rect(canvas.left + b.x0 * canvas.width, canvas.top + b.y0 * canvas.height,
         (b.x1 - b.x0) * canvas.width, (b.y1 - b.y0) * canvas.height)
  }

  /** `inner` lies inside `outer`. */
  predicate Within(inner: Rect, outer: Rect) {
    && outer.left <= inner.left && inner.left + inner.width <= outer.left + outer.width
    && outer.top <= inner.top && inner.top + inner.height <= outer.top + outer.height
  }

  /**
   * The canvas drawn for page `pageNumber`: the page layer at index
   * `pageNumber - 1`, then the canvas inside it.
   */
  function CanvasOf(container: Container, pageNumber: int): (r: Option<Rect>)
    ensures r.Some? <==> pageNumber - 1 in container.pageLayers
                         && container.pageLayers[pageNumber - 1].canvas.Some?
  {
    if pageNumber - 1 in container.pageLayers then container.pageLayers[pageNumber - 1].canvas else None
  }

  /**
   * The arithmetic of the effect: the box scaled by the canvas's size,
   * offset by the canvas's position relative to the container. Moved back
   * by the container's position, the result is exactly the region of the
   * canvas the box covers.
   */
  function Place(b: BBox, canvasRect: Rect, containerRect: Rect): (r: Rect)
    ensures Translate(r, containerRect.left, containerRect.top) == Region(b, canvasRect)
  {
    var x0 := b.x0 * canvasRect.width;
    var y0 := b.y0 * canvasRect.height;
    var x1 := b.x1 * canvasRect.width;
    var y1 := b.y1 * canvasRect.height;
    Rect(canvasRect.left - containerRect.left + x0, canvasRect.top - containerRect.top + y0,
         x1 - x0, y1 - y0)
  }

  /**
   * One run of the effect: nothing when the container, the page layer or
   * its canvas is missing; otherwise the box placed on that canvas relative
   * to the container.
   */
  function Project(b: BBox, pageNumber: int, container: Option<Container>): (r: Option<Rect>)
    ensures r.None? <==> container.None? || CanvasOf(container.value, pageNumber).None?
    ensures r.Some? ==>
      Translate(r.value, container.value.rect.left, container.value.rect.top)
        == Region(b, container.value.pageLayers[pageNumber - 1].canvas.value)
  {
    match container
    case None => None
    case Some(c) =>
      match CanvasOf(c, pageNumber)
      case None => None
      case Some(canvasRect) => Some(Place(b, canvasRect, c.rect))
  }

  /** The inputs of one run of the effect. */
  datatype EffectRun = EffectRun(bbox: BBox, pageNumber: int, container: Option<Container>)

  /** A run finds the container, the page layer and its canvas. */
  predicate Succeeds(run: EffectRun) {
    Project(run.bbox, run.pageNumber, run.container).Some?
  }

  /**
   * The position after one run. When a lookup fails the early `return`
   * leaves it as it was; otherwise it is the box's region of the canvas,
   * moved by the container's position.
   */
  function RunEffect(position: Rect, run: EffectRun): (r: Rect)
    ensures (run.container.None? || CanvasOf(run.container.value, run.pageNumber).None?) ==> r == position
    ensures run.container.Some? && CanvasOf(run.container.value, run.pageNumber).Some? ==>
      Translate(r, run.container.value.rect.left, run.container.value.rect.top)
        == Region(run.bbox, run.container.value.pageLayers[run.pageNumber - 1].canvas.value)
  {
    match Project(run.bbox, run.pageNumber, run.container)
    case None => position
    case Some(r) => r
  }

  /**
   * The position after a sequence of runs, starting from the initial
   * position: it is either still all zeros or what some run placed.
   */
  function PositionAfter(runs: seq<EffectRun>): (r: Rect)
    ensures r == InitialPosition
            || exists k :: 0 <= k < |runs| && Succeeds(runs[k])
                           && r == Project(runs[k].bbox, runs[k].pageNumber, runs[k].container).value
  {
    if runs == [] then InitialPosition
    else
      var prefix := runs[..|runs| - 1];
      var last := runs[|runs| - 1];
      var before := PositionAfter(prefix);
      assert before != InitialPosition ==>
        exists k :: (0 <= k < |runs| - 1 && Succeeds(runs[k])
                     && before == Project(runs[k].bbox, runs[k].pageNumber, runs[k].container).value) by {
        if before != InitialPosition {
          var k :| 0 <= k < |prefix| && Succeeds(prefix[k])
                   && before == Project(prefix[k].bbox, prefix[k].pageNumber, prefix[k].container).value;
          assert prefix[k] == runs[k];
        }
      }
      RunEffect(before, last)
  }

  // ---------------------------------------------------------------------
  // Properties
  // ---------------------------------------------------------------------

  /** Until a run succeeds, the position is all zeros. */
  lemma {:induction false} PositionZeroUntilSuccess(runs: seq<EffectRun>)
    requires forall i :: 0 <= i < |runs| ==> !Succeeds(runs[i])
    ensures PositionAfter(runs) == Rect(0.0, 0.0, 0.0, 0.0)
  {
    if runs != [] {
      var prefix := runs[..|runs| - 1];
      assert forall i :: 0 <= i < |prefix| ==> prefix[i] == runs[i];
      PositionZeroUntilSuccess(prefix);
    }
  }

  /** The position is the projection of the latest run that succeeded; failed runs keep it. */
  lemma {:induction false} PositionIsLatestSuccess(runs: seq<EffectRun>, k: nat)
    requires k < |runs| && Succeeds(runs[k])
    requires forall j :: k < j < |runs| ==> !Succeeds(runs[j])
    ensures PositionAfter(runs) == Project(runs[k].bbox, runs[k].pageNumber, runs[k].container).value
  {
    if k < |runs| - 1 {
      var prefix := runs[..|runs| - 1];
      assert forall j :: k < j < |prefix| ==> prefix[j] == runs[j];
      PositionIsLatestSuccess(prefix, k);
    }
  }

  /** Width and height depend on the box and the canvas's size only, not on where either rectangle is. */
  lemma PlaceSizeIgnoresPosition(b: BBox, canvasRect: Rect, containerRect: Rect, canvasRect': Rect, containerRect': Rect)
    requires canvasRect'.width == canvasRect.width && canvasRect'.height == canvasRect.height
    ensures Place(b, canvasRect', containerRect').width == Place(b, canvasRect, containerRect).width
                                                        == (b.x1 - b.x0) * canvasRect.width
    ensures Place(b, canvasRect', containerRect').height == Place(b, canvasRect, containerRect).height
                                                         == (b.y1 - b.y0) * canvasRect.height
  {
    assert Region(b, canvasRect').height == Region(b, canvasRect).height;
  }

  /** Moving only the container by `(dx, dy)` moves the overlay by `(-dx, -dy)` and keeps its size. */
  lemma PlaceContainerMoved(b: BBox, canvasRect: Rect, containerRect: Rect, dx: real, dy: real)
    ensures Place(b, canvasRect, Translate(containerRect, dx, dy))
            == Translate(Place(b, canvasRect, containerRect), -dx, -dy)
  {
    var moved := Place(b, canvasRect, Translate(containerRect, dx, dy));
    var r := Place(b, canvasRect, containerRect);
    assert moved.left == canvasRect.left - (containerRect.left + dx) + b.x0 * canvasRect.width == r.left - dx;
    assert moved.top == canvasRect.top - (containerRect.top + dy) + b.y0 * canvasRect.height == r.top - dy;
  }

  /** Moving canvas and container together, as a scroll of the whole viewport does, changes nothing. */
  lemma PlaceBothMoved(b: BBox, canvasRect: Rect, containerRect: Rect, dx: real, dy: real)
    ensures Place(b, Translate(canvasRect, dx, dy), Translate(containerRect, dx, dy))
            == Place(b, canvasRect, containerRect)
  {
    var moved := Place(b, Translate(canvasRect, dx, dy), Translate(containerRect, dx, dy));
    var r := Place(b, canvasRect, containerRect);
    assert moved.left == (canvasRect.left + dx) - (containerRect.left + dx) + b.x0 * canvasRect.width == r.left;
    assert moved.top == (canvasRect.top + dy) - (containerRect.top + dy) + b.y0 * canvasRect.height == r.top;
    assert moved.width == r.width && moved.height == r.height;
  }

  /** Every canvas of the container moved by `(dx, dy)`. */
  function ShiftCanvases(layers: map<int, PageLayer>, dx: real, dy: real): (m: map<int, PageLayer>)
    ensures m.Keys == layers.Keys
    ensures forall k :: k in m ==> m[k].canvas.Some? == layers[k].canvas.Some?
    ensures forall k :: k in m && m[k].canvas.Some? ==>
      m[k].canvas.value == Translate(layers[k].canvas.value, dx, dy)
  {
    map k | k in layers ::
      match layers[k].canvas
      case None => layers[k]
      case Some(c) => PageLayer(Some(Translate(c, dx, dy)))
  }

  /**
   * Re-running the effect after the container alone moved moves the overlay
   * the opposite way; after the container and every page canvas moved
   * together it gives the same overlay. Lookup failures are unaffected.
   */
  lemma ProjectUnderMoves(b: BBox, pageNumber: int, c: Container, dx: real, dy: real)
    ensures var moved := Project(b, pageNumber, Some(Container(Translate(c.rect, dx, dy), c.pageLayers)));
            var before := Project(b, pageNumber, Some(c));
            moved.Some? == before.Some?
            && (moved.Some? ==> moved.value == Translate(before.value, -dx, -dy))
    ensures Project(b, pageNumber, Some(Container(Translate(c.rect, dx, dy), ShiftCanvases(c.pageLayers, dx, dy))))
            == Project(b, pageNumber, Some(c))
  {
    var shifted := Container(Translate(c.rect, dx, dy), ShiftCanvases(c.pageLayers, dx, dy));
    if CanvasOf(c, pageNumber).Some? {
      var canvasRect := CanvasOf(c, pageNumber).value;
      assert CanvasOf(shifted, pageNumber) == Some(Translate(canvasRect, dx, dy));
      PlaceContainerMoved(b, canvasRect, c.rect, dx, dy);
      PlaceBothMoved(b, canvasRect, c.rect, dx, dy);
    } else {
      assert CanvasOf(shifted, pageNumber).None?;
    }
  }

  lemma ProductInRange(f: real, g: real, w: real)
    requires 0.0 <= f <= g <= 1.0 && w >= 0.0
    ensures 0.0 <= f * w <= g * w <= w
  {
  }

  /**
   * One axis of the overlay: the fractions `[f, g]` of `[0, 1]` scaled by a
   * non-negative `size` and offset by `origin` give a span of non-negative
   * length inside `[origin, origin + size]`.
   */
  lemma SpanWithin(origin: real, f: real, g: real, size: real)
    requires 0.0 <= f <= g <= 1.0 && size >= 0.0
    ensures var lo, hi := f * size, g * size;
      origin <= origin + lo && hi - lo >= 0.0 && (origin + lo) + (hi - lo) <= origin + size
  {
    ProductInRange(f, g, size);
  }

  /**
   * For a box in the unit square and a canvas of non-negative size, the
   * overlay has non-negative size and lies inside the canvas's area as seen
   * from the container.
   */
  lemma PlaceInsideCanvas(b: BBox, canvasRect: Rect, containerRect: Rect)
    requires InUnit(b) && canvasRect.width >= 0.0 && canvasRect.height >= 0.0
    ensures var r := Place(b, canvasRect, containerRect);
      && r.width >= 0.0 && r.height >= 0.0
      && Within(r, Translate(canvasRect, -containerRect.left, -containerRect.top))
  {
    var w, h := canvasRect.width, canvasRect.height;
    var dl, dt := canvasRect.left - containerRect.left, canvasRect.top - containerRect.top;
    assert Translate(canvasRect, -containerRect.left, -containerRect.top) == Rect(dl, dt, w, h);
    assert Place(b, canvasRect, containerRect)
        == Rect(dl + b.x0 * w, dt + b.y0 * h, b.x1 * w - b.x0 * w, b.y1 * h - b.y0 * h);
    SpanWithin(dl, b.x0, b.x1, w);
    SpanWithin(dt, b.y0, b.y1, h);
  }

  /**
   * The box `[0, 0, 0.5, 0.5]` on page 1, whose 800 by 600 canvas is at
   * (100, 50) in a container at the origin, is drawn at (100, 50) with size
   * 400 by 300.
   */
  lemma WorkedExample(containerWidth: real, containerHeight: real)
    ensures var canvasRect := Rect(100.0, 50.0, 800.0, 600.0);
            var c := Container(Rect(0.0, 0.0, containerWidth, containerHeight),
                               map[0 := PageLayer(Some(canvasRect))]);
            Project(BBox(0.0, 0.0, 0.5, 0.5), 1, Some(c)) == Some(Rect(100.0, 50.0, 400.0, 300.0))
  {
  }
}
