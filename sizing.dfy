/** Column geometry of the masonry component: its options, how many columns a
    measured container width holds, and how wide each column is. */
module Sizing {

  /** The component's configuration (the layout-relevant part of its props). */
  datatype Options = Options(
    virtual: bool,              // render only the placements near the viewport
    gap: int,                   // spacing between items, in px
    topPreloadScreens: int,     // viewport heights preloaded above the viewport
    bottomPreloadScreens: int,  // viewport heights preloaded below the viewport
    itemMinWidth: int,          // minimum column width, in px
    maxColumnCount: int,        // upper clamp on the column count (0: no clamp)
    minColumnCount: int         // column count used when the container is narrow
  )

  /** The defaults the component merges its props over. */
  const Defaults := Options(true, 15, 0, 0, 220, 10, 2)

  /** Number of columns for a container of `width` px; 0 while unmeasured.
      A width of at least two minimum widths holds as many minimum-width
      columns as fit, clamped to a non-zero maximum; a narrower one falls
      back to the configured minimum, whatever the maximum says. */
  function ColumnCount(width: int, itemMinWidth: int, minColumnCount: int, maxColumnCount: int): (r: int)
    requires itemMinWidth > 0
    ensures width == 0 ==> r == 0
    ensures width != 0 && width < 2 * itemMinWidth ==> r == minColumnCount
    ensures width >= 2 * itemMinWidth ==>
      (maxColumnCount != 0 && width >= (maxColumnCount + 1) * itemMinWidth ==> r == maxColumnCount)
    ensures width >= 2 * itemMinWidth && !(maxColumnCount != 0 && width >= (maxColumnCount + 1) * itemMinWidth) ==>
      2 <= r && r * itemMinWidth <= width < (r + 1) * itemMinWidth
  {
    if width == 0 then 0
    else if width >= itemMinWidth * 2 then
      var count := width / itemMinWidth;
      FloorDivBounds(width, itemMinWidth);
      if maxColumnCount != 0 && count > maxColumnCount then
        assert width >= (maxColumnCount + 1) * itemMinWidth by {
          MulMonotone(maxColumnCount + 1, count, itemMinWidth);
        }
        maxColumnCount
      else
        assert !(width >= (maxColumnCount + 1) * itemMinWidth) || maxColumnCount == 0 by {
          if maxColumnCount != 0 && width >= (maxColumnCount + 1) * itemMinWidth {
            MulMonotone(count + 1, maxColumnCount + 1, itemMinWidth);
          }
        }
        assert 2 <= count by {
          if count < 2 { MulMonotone(count + 1, 2, itemMinWidth); }
        }
        count
    else minColumnCount
  }

  /** The quotient of Euclidean division by a positive divisor brackets the dividend. */
  lemma FloorDivBounds(n: int, d: int)
    requires d > 0
    ensures (n / d) * d <= n < (n / d + 1) * d
  {
  }

  /** Multiplication by a positive factor keeps the order of its operands. */
  lemma MulMonotone(a: int, b: int, d: int)
    requires d > 0 && a <= b
    ensures a * d <= b * d
  {
  }

  /** Ceiling of n / d for a positive divisor, for any sign of n (Math.ceil). */
  function CeilDiv(n: int, d: int): (r: int)
    requires d > 0
    ensures d * r >= n && d * (r - 1) < n
  {
    var q := (-n) / d;
    FloorDivBounds(-n, d);
    -q
  }

  /** The width every column gets: 0 while unmeasured or without columns;
      otherwise the least integer width such that `cols` columns of it cover
      what is left of the container after the `cols - 1` gaps. */
  function ItemWidth(width: int, cols: int, gap: int): (r: int)
    ensures width == 0 || cols <= 0 ==> r == 0
    ensures width != 0 && cols > 0 ==>
      cols * r >= width - gap * (cols - 1) && cols * (r - 1) < width - gap * (cols - 1)
  {
    if width == 0 || cols <= 0 then 0
    else CeilDiv(width - (cols - 1) * gap, cols)
  }

  /** Rounding up never leaves a seam: the columns and their gaps span the
      whole container and overshoot it by less than one pixel per column. */
  lemma ItemWidthCoversContainer(width: int, cols: int, gap: int)
    requires width != 0 && cols > 0
    ensures var w := ItemWidth(width, cols, gap);
      width <= cols * w + gap * (cols - 1) < width + cols
  {
  }
}
