/** TopLegendRenderer of grid.py: the legend entries flow into rows, once to
    find the height (layout) and once more to draw them. */
module Legend {

  /** The extents of a legend's text. */
  datatype Extent = Extent(width: real, height: real)

  datatype Box = Box(x: real, y: real, width: real, height: real)

  /** The position of the flow after some entries. */
  datatype Pen = Pen(lineHeight: real, totalHeight: real, lineUsed: real)

  ghost predicate Apart(a: Box, b: Box) {
    || a.x + a.width <= b.x || b.x + b.width <= a.x
    || a.y + a.height <= b.y || b.y + b.height <= a.y
  }

  ghost predicate Sizes(legends: seq<Extent>, padding: real) {
    padding >= 0.0 && forall k :: 0 <= k < |legends| ==> legends[k].width >= 0.0 && legends[k].height >= 0.0
  }

  ghost function ItemWidth(e: Extent, padding: real): real {
    padding + padding + e.width + padding
  }

  ghost function ItemHeight(e: Extent, padding: real): real {
    e.height + padding
  }

  /** The entry e no longer fits in the current row. */
  ghost predicate Breaks(pen: Pen, e: Extent, padding: real, width: real) {
    pen.lineUsed + ItemWidth(e, padding) > width
  }

  ghost function Advance(pen: Pen, e: Extent, padding: real, width: real): Pen {
    var tallest := if ItemHeight(e, padding) > pen.lineHeight then ItemHeight(e, padding) else pen.lineHeight;
    if Breaks(pen, e, padding, width) then
      Pen(tallest, pen.totalHeight + tallest, padding + ItemWidth(e, padding))
    else
      Pen(tallest, pen.totalHeight, pen.lineUsed + ItemWidth(e, padding))
  }

  ghost function PenAfter(legends: seq<Extent>, padding: real, width: real): Pen {
    if legends == [] then Pen(0.0, padding, padding)
    else Advance(PenAfter(legends[..|legends| - 1], padding, width), legends[|legends| - 1], padding, width)
  }

  /** Which entries start a new row. */
  ghost function RowBreaks(legends: seq<Extent>, padding: real, width: real): (breaks: seq<bool>)
    ensures |breaks| == |legends|
  {
    if legends == [] then []
    else
      var n := |legends| - 1;
      RowBreaks(legends[..n], padding, width) + [Breaks(PenAfter(legends[..n], padding, width), legends[n], padding, width)]
  }

  ghost function BoxAt(legends: seq<Extent>, padding: real, width: real, k: nat): Box
    requires k < |legends|
  {
    var pen, e := PenAfter(legends[..k + 1], padding, width), legends[k];
    Box(pen.lineUsed - ItemWidth(e, padding), pen.totalHeight, ItemWidth(e, padding), ItemHeight(e, padding))
  }

  class TopLegendRenderer {
    var padding: real
    var legends: seq<Extent>
    var width: real
    var height: real

    constructor ()
      ensures padding == 10.0 && legends == []
    {
      padding, legends, width, height := 10.0, [], 0.0, 0.0;
    }

    /** The height of the flow of the entries into rows, and where its rows break. */
    method Layout(width: real) returns (ghost breaks: seq<bool>)
      modifies this`width, this`height
      ensures this.width == width && breaks == RowBreaks(legends, padding, width)
      ensures var pen := PenAfter(legends, padding, width); height == pen.totalHeight + pen.lineHeight
    {
      this.width := width;
      breaks := [];
      var lineHeight, totalHeight, lineUsed := 0.0, padding, padding;
      for i := 0 to |legends|
        invariant this.width == width && breaks == RowBreaks(legends[..i], padding, width)
        invariant Pen(lineHeight, totalHeight, lineUsed) == PenAfter(legends[..i], padding, width)
      {
        var e := legends[i];
        assert legends[..i + 1][..i] == legends[..i];
        var itemWidth := padding + padding + e.width + padding;
        var itemHeight := e.height + padding;
        if itemHeight > lineHeight {
          lineHeight := itemHeight;
        }
        breaks := breaks + [lineUsed + itemWidth > this.width];
        if lineUsed + itemWidth > this.width {
          lineUsed := padding + itemWidth;
          totalHeight := totalHeight + lineHeight;
        } else {
          lineUsed := lineUsed + itemWidth;
        }
      }
      assert legends[..|legends|] == legends;
      height := totalHeight + lineHeight;
    }

    /** The loop of draw: the boxes of the entries, and where the rows break. */
    method PlaceBoxes() returns (boxes: seq<Box>, ghost breaks: seq<bool>)
      ensures Placements(legends, padding, width, boxes) && breaks == RowBreaks(legends, padding, width)
    {
      boxes, breaks := [], [];
      var lineHeight, totalHeight, lineUsed := 0.0, padding, padding;
      for i := 0 to |legends|
        invariant |boxes| == i && breaks == RowBreaks(legends[..i], padding, width)
        invariant Pen(lineHeight, totalHeight, lineUsed) == PenAfter(legends[..i], padding, width)
        invariant forall k :: 0 <= k < i ==> boxes[k] == BoxAt(legends, padding, width, k)
      {
        var e := legends[i];
        assert legends[..i + 1][..i] == legends[..i];
        var itemWidth := padding + padding + e.width + padding;
        var itemHeight := e.height + padding;
        if itemHeight > lineHeight {
          lineHeight := itemHeight;
        }
        breaks := breaks + [lineUsed + itemWidth > width];
        if lineUsed + itemWidth > width {
          lineUsed := padding + itemWidth;
          totalHeight := totalHeight + lineHeight;
        } else {
          lineUsed := lineUsed + itemWidth;
        }
        var x := lineUsed - itemWidth;
        boxes := boxes + [Box(x, totalHeight, itemWidth, itemHeight)];
      }
      assert legends[..|legends|] == legends;
    }

    /** After a layout, draw places every entry inside the reported height and
        no two of them overlap; an entry starts a row exactly at a break. */
    method Draw() returns (boxes: seq<Box>, ghost breaks: seq<bool>)
      requires Sizes(legends, padding)
      requires var pen := PenAfter(legends, padding, width); height == pen.totalHeight + pen.lineHeight
      ensures |boxes| == |legends| && breaks == RowBreaks(legends, padding, width)
      ensures Rows(boxes, breaks, padding) && BreaksWhereFull(boxes, breaks, padding, width)
      ensures StepsDown(boxes, breaks, padding, height)
      ensures forall k :: 0 <= k < |boxes| ==>
        boxes[k].width == 3.0 * padding + legends[k].width && boxes[k].height == legends[k].height + padding
      ensures forall k :: 0 <= k < |boxes| ==> boxes[k] == BoxAt(legends, padding, width, k)
      ensures forall k :: 0 <= k < |boxes| ==> padding <= boxes[k].x && padding <= boxes[k].y
                                               && boxes[k].y + boxes[k].height <= height
      ensures forall k :: 0 <= k < |boxes| ==>
        (boxes[k].x + boxes[k].width <= width <==> padding + ItemWidth(legends[k], padding) <= width)
      ensures forall j, k :: 0 <= j < k < |boxes| ==> Apart(boxes[j], boxes[k])
    {
      boxes, breaks := PlaceBoxes();
      RowsFollow(legends, padding, width, boxes);
      FullRowsBreak(legends, padding, width, boxes);
      RowsStepDown(legends, padding, width, boxes);
      AllPlaced(legends, padding, width, boxes);
      AllFit(legends, padding, width, boxes);
      AllApart(legends, padding, width, boxes);
    }

    /** Layout for a width, then draw: both break the rows at the same entries. */
    method Show(width: real) returns (boxes: seq<Box>, ghost laidOut: seq<bool>, ghost drawn: seq<bool>)
      requires Sizes(legends, padding)
      modifies this`width, this`height
      ensures laidOut == drawn && |boxes| == |legends| && Rows(boxes, laidOut, padding)
      ensures BreaksWhereFull(boxes, laidOut, padding, width) && StepsDown(boxes, laidOut, padding, height)
      ensures forall k :: 0 <= k < |boxes| ==>
        boxes[k].width == 3.0 * padding + legends[k].width && boxes[k].height == legends[k].height + padding
      ensures forall k :: 0 <= k < |boxes| ==> boxes[k].y + boxes[k].height <= height
      ensures forall j, k :: 0 <= j < k < |boxes| ==> Apart(boxes[j], boxes[k])
    {
      laidOut := Layout(width);
      boxes, drawn := Draw();
    }
  }

  /** b starts a row below a, or stands beside a in its row. */
  ghost predicate FollowsBreak(a: Box, b: Box, breaks: bool, padding: real) {
    if breaks then b.x == padding && a.y + a.height <= b.y
    else b.y == a.y && b.x == a.x + a.width
  }

  ghost predicate Rows(boxes: seq<Box>, breaks: seq<bool>, padding: real) {
    |boxes| == |breaks| && forall k :: 0 < k < |boxes| ==> FollowsBreak(boxes[k - 1], boxes[k], breaks[k], padding)
  }

  /** A row breaks in front of a box exactly when the box would cross the right
      edge beside the one before it; the first box stands in the upper left
      corner unless it is too wide for a row, and then one row lower. */
  ghost predicate BreaksWhereFull(boxes: seq<Box>, breaks: seq<bool>, padding: real, width: real) {
    && |boxes| == |breaks|
    && (forall k :: 0 < k < |boxes| ==>
          (breaks[k] <==> boxes[k - 1].x + boxes[k - 1].width + boxes[k].width > width))
    && (boxes != [] ==>
          && (breaks[0] <==> padding + boxes[0].width > width)
          && boxes[0].x == padding
          && boxes[0].y == if breaks[0] then padding + boxes[0].height else padding)
  }

  lemma {:induction false} FullRowsBreak(legends: seq<Extent>, padding: real, width: real, boxes: seq<Box>)
    requires Sizes(legends, padding) && Placements(legends, padding, width, boxes)
    ensures BreaksWhereFull(boxes, RowBreaks(legends, padding, width), padding, width)
  {
    var breaks := RowBreaks(legends, padding, width);
    forall k | 0 < k < |boxes|
      ensures breaks[k] <==> boxes[k - 1].x + boxes[k - 1].width + boxes[k].width > width
    {
      RowBreakAt(legends, padding, width, k);
    }
    if boxes != [] {
      RowBreakAt(legends, padding, width, 0);
      assert legends[..1][..0] == [] == legends[..0];
    }
  }

  /** h is the greatest height among the boxes up to number k. */
  ghost predicate IsTallest(boxes: seq<Box>, k: nat, h: real) {
    && k < |boxes|
    && (forall j :: 0 <= j <= k ==> boxes[j].height <= h)
    && exists j :: 0 <= j <= k && boxes[j].height == h
  }

  /** A break leads down by the greatest height of all boxes so far, and the total
      height lies that far below the last row. */
  ghost predicate StepsDown(boxes: seq<Box>, breaks: seq<bool>, padding: real, height: real) {
    && |boxes| == |breaks|
    && (forall k :: 0 < k < |boxes| && breaks[k] ==> IsTallest(boxes, k, boxes[k].y - boxes[k - 1].y))
    && (if boxes == [] then height == padding
        else IsTallest(boxes, |boxes| - 1, height - boxes[|boxes| - 1].y))
  }

  lemma {:induction false} LineHeightIsTallest(legends: seq<Extent>, padding: real, width: real, boxes: seq<Box>, k: nat)
    requires Sizes(legends, padding) && Placements(legends, padding, width, boxes) && k < |boxes|
    ensures IsTallest(boxes, k, PenAfter(legends[..k + 1], padding, width).lineHeight)
  {
    assert legends[..k + 1][..k] == legends[..k];
    assert boxes[k].height == ItemHeight(legends[k], padding);
    if k > 0 {
      LineHeightIsTallest(legends, padding, width, boxes, k - 1);
    } else {
      assert legends[..0] == [];
    }
  }

  lemma {:induction false} BreakStepsDown(legends: seq<Extent>, padding: real, width: real, k: nat)
    requires 0 < k < |legends| && RowBreaks(legends, padding, width)[k]
    ensures BoxAt(legends, padding, width, k).y - BoxAt(legends, padding, width, k - 1).y
      == PenAfter(legends[..k + 1], padding, width).lineHeight
  {
    RowBreakAt(legends, padding, width, k);
    assert legends[..k + 1][..k] == legends[..k];
  }

  lemma {:induction false} BreaksStepDown(legends: seq<Extent>, padding: real, width: real, boxes: seq<Box>)
    requires Sizes(legends, padding) && Placements(legends, padding, width, boxes)
    ensures forall k :: 0 < k < |boxes| && RowBreaks(legends, padding, width)[k] ==>
      IsTallest(boxes, k, boxes[k].y - boxes[k - 1].y)
  {
    forall k | 0 < k < |boxes| && RowBreaks(legends, padding, width)[k]
      ensures IsTallest(boxes, k, boxes[k].y - boxes[k - 1].y)
    {
      BreakStepsDown(legends, padding, width, k);
      LineHeightIsTallest(legends, padding, width, boxes, k);
    }
  }

  lemma {:induction false} RowsStepDown(legends: seq<Extent>, padding: real, width: real, boxes: seq<Box>)
    requires Sizes(legends, padding) && Placements(legends, padding, width, boxes)
    ensures var pen := PenAfter(legends, padding, width);
      StepsDown(boxes, RowBreaks(legends, padding, width), padding, pen.totalHeight + pen.lineHeight)
  {
    BreaksStepDown(legends, padding, width, boxes);
    if boxes != [] {
      assert legends[..|legends|] == legends;
      LineHeightIsTallest(legends, padding, width, boxes, |boxes| - 1);
    }
  }

  ghost predicate Placements(legends: seq<Extent>, padding: real, width: real, boxes: seq<Box>) {
    |boxes| == |legends| && forall k :: 0 <= k < |boxes| ==> boxes[k] == BoxAt(legends, padding, width, k)
  }

  lemma {:induction false} RowsFollow(legends: seq<Extent>, padding: real, width: real, boxes: seq<Box>)
    requires Sizes(legends, padding) && Placements(legends, padding, width, boxes)
    ensures Rows(boxes, RowBreaks(legends, padding, width), padding)
  {
    forall k | 0 < k < |legends|
      ensures FollowsBreak(boxes[k - 1], boxes[k], RowBreaks(legends, padding, width)[k], padding)
    {
      BoxFollows(legends, padding, width, k);
    }
  }

  lemma {:induction false} AllPlaced(legends: seq<Extent>, padding: real, width: real, boxes: seq<Box>)
    requires Sizes(legends, padding) && Placements(legends, padding, width, boxes)
    ensures forall k :: 0 <= k < |boxes| ==> Placed(PenAfter(legends, padding, width), boxes[k], padding)
  {
    assert legends[..|legends|] == legends;
    forall k | 0 <= k < |legends| ensures Placed(PenAfter(legends, padding, width), boxes[k], padding) {
      StaysPlaced(legends, padding, width, k, |legends|);
    }
  }

  lemma AllFit(legends: seq<Extent>, padding: real, width: real, boxes: seq<Box>)
    requires Sizes(legends, padding) && Placements(legends, padding, width, boxes)
    ensures forall k :: 0 <= k < |boxes| ==>
      (boxes[k].x + boxes[k].width <= width <==> padding + ItemWidth(legends[k], padding) <= width)
  {
    forall k | 0 <= k < |legends|
      ensures boxes[k].x + boxes[k].width <= width <==> padding + ItemWidth(legends[k], padding) <= width
    {
      FitsIff(legends, padding, width, k);
    }
  }

  lemma AllApart(legends: seq<Extent>, padding: real, width: real, boxes: seq<Box>)
    requires Sizes(legends, padding) && Placements(legends, padding, width, boxes)
    ensures forall j, k :: 0 <= j < k < |boxes| ==> Apart(boxes[j], boxes[k])
  {
    forall j, k | 0 <= j < k < |boxes| ensures Apart(boxes[j], boxes[k]) {
      BoxesApart(legends, padding, width, j, k);
    }
  }

  lemma {:induction false} RowBreakAt(legends: seq<Extent>, padding: real, width: real, k: nat)
    requires k < |legends|
    ensures RowBreaks(legends, padding, width)[k]
      <==> Breaks(PenAfter(legends[..k], padding, width), legends[k], padding, width)
  {
    var n := |legends| - 1;
    if k < n {
      RowBreakAt(legends[..n], padding, width, k);
      assert legends[..n][..k] == legends[..k];
    }
  }

  lemma {:induction false} BoxFollows(legends: seq<Extent>, padding: real, width: real, k: nat)
    requires Sizes(legends, padding) && 0 < k < |legends|
    ensures FollowsBreak(BoxAt(legends, padding, width, k - 1), BoxAt(legends, padding, width, k),
                         RowBreaks(legends, padding, width)[k], padding)
  {
    RowBreakAt(legends, padding, width, k);
    NewBoxPlaced(legends, padding, width, k - 1);
    assert legends[..k + 1][..k] == legends[..k];
  }

  /** A box that lies above the current row, or in it and to the left of the pen. */
  ghost predicate Placed(pen: Pen, b: Box, padding: real) {
    && pen.lineHeight >= 0.0 && padding <= b.x && padding <= b.y
    && (|| b.y + b.height <= pen.totalHeight
        || (b.y == pen.totalHeight && b.x + b.width <= pen.lineUsed && b.height <= pen.lineHeight))
  }

  lemma {:induction false} PenBounds(legends: seq<Extent>, padding: real, width: real)
    requires Sizes(legends, padding)
    ensures var pen := PenAfter(legends, padding, width);
      pen.lineHeight >= 0.0 && pen.totalHeight >= padding && pen.lineUsed >= padding
  {
    if legends != [] {
      PenBounds(legends[..|legends| - 1], padding, width);
    }
  }

  ghost predicate FitsWidth(b: Box, width: real) {
    b.x + b.width <= width
  }

  /** An entry crosses the right edge only when it is too wide for any row. */
  lemma FitsIff(legends: seq<Extent>, padding: real, width: real, k: nat)
    requires Sizes(legends, padding) && k < |legends|
    ensures FitsWidth(BoxAt(legends, padding, width, k), width)
      <==> padding + ItemWidth(legends[k], padding) <= width
  {
    assert legends[..k + 1][..k] == legends[..k];
    PenBounds(legends[..k], padding, width);
  }

  lemma {:induction false} NewBoxPlaced(legends: seq<Extent>, padding: real, width: real, k: nat)
    requires Sizes(legends, padding) && k < |legends|
    ensures Placed(PenAfter(legends[..k + 1], padding, width), BoxAt(legends, padding, width, k), padding)
  {
    assert legends[..k + 1][..k] == legends[..k];
    PenBounds(legends[..k], padding, width);
  }

  /** A placed box stays placed as further entries flow. */
  lemma {:induction false} StaysPlaced(legends: seq<Extent>, padding: real, width: real, k: nat, n: nat)
    requires Sizes(legends, padding) && k < n <= |legends|
    ensures Placed(PenAfter(legends[..n], padding, width), BoxAt(legends, padding, width, k), padding)
    decreases n
  {
    if n == k + 1 {
      NewBoxPlaced(legends, padding, width, k);
    } else {
      StaysPlaced(legends, padding, width, k, n - 1);
      assert legends[..n][..n - 1] == legends[..n - 1];
    }
  }

  lemma BoxesApart(legends: seq<Extent>, padding: real, width: real, j: nat, k: nat)
    requires Sizes(legends, padding) && j < k < |legends|
    ensures Apart(BoxAt(legends, padding, width, j), BoxAt(legends, padding, width, k))
  {
    StaysPlaced(legends, padding, width, j, k);
    assert legends[..k + 1][..k] == legends[..k];
  }
}
