# Masonry layout engine of solid-masonry-virtual

A Dafny model of the layout core of the `Masonry` component in
`src/solid-masonry-virtual/Masonry.tsx`. The component shows a list of items
in a waterfall grid. It works out how many columns fit in the measured
container width and how wide each column is. Each item goes to the first
shortest column, at that column's running height (`columnsTop`), and that
column then grows by the item's height plus the gap. When items are only
appended, the earlier placements are reused and only the new items are
laid out. The container reports the height of its tallest column. A
virtual windower renders only the placements that meet a window around the
viewport, extended by a number of preloaded screens above and below.

The modules follow that structure:

- `Sizing`: the options with their defaults (`Defaults`, the values merged under the props at `Masonry.tsx:29-40`), `ColumnCount` (`columnCount`) and `ItemWidth` (`itemWidth`).
- `Columns`: the running heights. `ShortestColumn` (`getColumnIndex`, i.e. `indexOf(Math.min(...))`) and `ContainerHeight` (`Math.max(...columnsTop)`).
- `Layout`: the layout effect on values.
  - `Step` is one loop iteration.
  - `Extend` lays out a list of items.
  - `FullPass` is a pass over zeroed columns.
  - `Recompute` is one run of the effect, with its cache and reset paths.
  - The lemmas cover placement, incremental equivalence, column sums, spacing, balance and coverage.
- `Engine`: the effect as the component runs it.
  - The class `Masonry` holds the `columnsTop` array and the published placements.
  - `Relayout` is the effect.
  - The layout loop (`FillSpaces`, `LayoutItem`, `PlaceNext`) mutates the array in place.
  - Each of them is proved against `Layout`.
- `Window`: `itemRenderList`.
  - `Visible` is the three-clause test.
  - `Filter` and `RenderSet` are the specification.
  - `RenderList` is the loop, proved equal to `RenderSet`.
  - The lemmas cover completeness, order and the overlap reading of the test.
- `Scenarios`: concrete cases, proved as lemmas. These include the default column counts and item width, the leftmost tie-break, a three-item layout, and an append after widening.

The cache path (`Masonry.tsx:104-106`) checks only that items were added,
not whether the column count or the item width changed. If the
container is resized and items are appended in the same run, the new items
are placed on the old column heights, at offsets computed from the new
item width. The model follows the code. `Scenarios.CacheKeepsOldColumns`
shows the effect: two columns, then a third item appended while the
container widened to three columns. `Layout.CacheAgreesWithFullPass`
states when the cache is sound: the previous state is a pass over a prefix
of the list, with the same columns, widths and heights.

Other modelling choices:

- Widths and heights are integers.
- Heights come from the `heightOf` oracle (`calcItemHeight`).
- The viewport's top offset `tp` and its height are parameters.
- Where JavaScript gives `-Infinity` (`Math.max` over no columns), the model gives `None`.
- A negative column count (from a negative configured minimum or maximum) makes `new Array(columnCount())` throw on the reset path. The model reports that as `InvalidArrayLength`, with the state unchanged.

## Model

| member | source | states |
|---|---|---|
| Sizing.ColumnCount | src/solid-masonry-virtual/Masonry.tsx:51-64 | 0 for an unmeasured (zero) width. The configured minimum below two minimum widths. From two minimum widths up: the non-zero maximum once the width holds maximum+1 minimum widths; otherwise the largest r >= 2 with r·itemMinWidth <= width < (r+1)·itemMinWidth |
| Sizing.CeilDiv | src/solid-masonry-virtual/Masonry.tsx:77 | `Math.ceil(n / d)` for a positive d and any sign of n: the least r with d·r >= n |
| Sizing.ItemWidth | src/solid-masonry-virtual/Masonry.tsx:70-78 | 0 when unmeasured or without columns; otherwise the least width r such that cols·r covers the width left after the cols-1 gaps |
| Sizing.ItemWidthCoversContainer | src/solid-masonry-virtual/Masonry.tsx:75-77 | the columns and gaps span the whole container and overshoot it by less than one pixel per column |
| Columns.MinOf | src/solid-masonry-virtual/Masonry.tsx:189 | `Math.min` over a non-empty array: an element, no larger than any element |
| Columns.IndexOf | src/solid-masonry-virtual/Masonry.tsx:189 | `indexOf`: -1 exactly when absent, otherwise the first position holding the value |
| Columns.ShortestColumn | src/solid-masonry-virtual/Masonry.tsx:188-190 | -1 without columns; otherwise a column of minimal height with every column left of it strictly taller (the first minimum) |
| Columns.FirstMinimumIsUnique | src/solid-masonry-virtual/Masonry.tsx:188-190 | any first minimum is the chosen column, so ties always go to the leftmost |
| Columns.MaxOf | src/solid-masonry-virtual/Masonry.tsx:198 | `Math.max` over a non-empty array: an element, no smaller than any element |
| Columns.ContainerHeight | src/solid-masonry-virtual/Masonry.tsx:198 | None (`-Infinity`) exactly without columns; otherwise the height of the tallest column |
| Layout.Zeros | src/solid-masonry-virtual/Masonry.tsx:108 | `new Array(n).fill(0)`: n columns, all at height 0 |
| Layout.ColumnLeft | src/solid-masonry-virtual/Masonry.tsx:122 | the left offset `(itemWidth + gap)·columnIndex` of a column; its properties are stated by Layout.ColumnsSpanContainer and Layout.StepPlaces |
| Layout.ColumnsSpanContainer | src/solid-masonry-virtual/Masonry.tsx:122 | the left offsets `(itemWidth + gap)·c` start at 0, step by one column width plus one gap, and the last column ends at the container's right edge, overshooting by less than one pixel per column |
| Layout.Step | src/solid-masonry-virtual/Masonry.tsx:118-136 | one iteration keeps the column count, adds exactly one placement and leaves the earlier ones untouched |
| Layout.StepPlaces | src/solid-masonry-virtual/Masonry.tsx:118-136 | the new placement has the next index and the item. Its column is the first shortest one, at that column's height, with left = (width+gap)·column and bottom = top + h. The chosen column grows by h + gap; every other column is unchanged |
| Layout.StepAt | src/solid-masonry-virtual/Masonry.tsx:118-136 | given the first shortest column c, a Step is the explicit state with the item placed in c |
| Layout.Extend | src/solid-masonry-virtual/Masonry.tsx:112-137 | laying out a list keeps the column count, adds one placement per item and keeps the earlier placements as a prefix |
| Layout.FullPass | src/solid-masonry-virtual/Masonry.tsx:108-137 | a pass from zeroed columns has `cols` columns, one placement per item, and is well formed (placement k records index k and a valid column) |
| Layout.Recompute | src/solid-masonry-virtual/Masonry.tsx:93-139 | Zero columns clear the placements and keep the heights. When items were only appended, the result is the previous state extended by the new items, on the old column heights, so the old placements stay a prefix. Otherwise it is the full pass over every item from `cols` zeroed columns. It fails exactly when the reset path meets a negative count. A laid-out result is well formed, and on a non-zero column count it has one placement per item |
| Layout.EmptyListReportsZero | src/solid-masonry-virtual/Masonry.tsx:98-109 | an empty item list on measured columns publishes no placements and a container height of 0 |
| Layout.ExtendOneMore | src/solid-masonry-virtual/Masonry.tsx:112-137 | laying out one more item of the list is one more Step |
| Layout.ExtendWellFormed | src/solid-masonry-virtual/Masonry.tsx:112-137 | every pass keeps placement k at index k and in an existing column |
| Layout.ExtendAppend | src/solid-masonry-virtual/Masonry.tsx:104-137 | incremental equivalence: laying out a, then b, equals laying out a + b |
| Layout.PrefixStable | src/solid-masonry-virtual/Masonry.tsx:112-137 | later items never move earlier ones: the placements of a prefix are a prefix of the whole pass |
| Layout.PlacementAt | src/solid-masonry-virtual/Masonry.tsx:118-133 | Placement k of any pass records index k and item k. It sits in the first shortest column of the heights the earlier items left, at that column's height and left offset, with bottom = top + height |
| Layout.ColumnLoadAppend | src/solid-masonry-virtual/Masonry.tsx:135 | a column's load (height + gap of its items) adds up over concatenation |
| Layout.ColumnLoadElsewhere | src/solid-masonry-virtual/Masonry.tsx:135 | placements in other columns put no load into a column |
| Layout.StepKeepsColumnSums | src/solid-masonry-virtual/Masonry.tsx:121-135 | one Step keeps "each column's height is its start height plus the load of its placements, and each placement's top is its column's load before it" |
| Layout.ExtendColumnSums | src/solid-masonry-virtual/Masonry.tsx:112-137 | any pass satisfies those column sums, measured from the heights it started on |
| Layout.FullPassColumnSums | src/solid-masonry-virtual/Masonry.tsx:108-137 | after a full pass each column's height is the total height+gap of its items, and each item's top is the load of its column before it |
| Layout.SpacingFromSums | src/solid-masonry-virtual/Masonry.tsx:121-135 | under the column sums, the next item of a column starts exactly one gap below the previous one's bottom |
| Layout.ColumnSpacing | src/solid-masonry-virtual/Masonry.tsx:121-135 | in any pass, consecutive items of one column are spaced by exactly the gap |
| Layout.ExtendKeepsBalance | src/solid-masonry-virtual/Masonry.tsx:118-135 | shortest-first placement keeps the column heights within b of each other when they start so and each item's height + gap is in [0, b] |
| Layout.FullPassBalanced | src/solid-masonry-virtual/Masonry.tsx:108-137 | after a full pass no column is more than b taller than another, for heights + gap in [0, b] |
| Layout.StepKeepsBottomsBelowTops | src/solid-masonry-virtual/Masonry.tsx:130-135 | when the item's height + gap is non-negative, one Step keeps every new placement's bottom at least one gap above its column's running height |
| Layout.ExtendBottomsBelowTops | src/solid-masonry-virtual/Masonry.tsx:112-137 | with height + gap never negative, every placement of a pass ends at least one gap above its column's final height |
| Layout.FullPassContainerCovers | src/solid-masonry-virtual/Masonry.tsx:198 | for a non-negative gap and every item's height + gap non-negative, the reported height exists and reaches the bottom of every placement of a full pass, so native scrolling covers every item |
| Layout.CacheAgreesWithFullPass | src/solid-masonry-virtual/Masonry.tsx:102-137 | the cache is sound: recomputing from a full pass over a prefix of the list gives the full pass over the whole list; an unchanged list re-lays out to the same state |
| Engine.PlaceNext | src/solid-masonry-virtual/Masonry.tsx:118-136 | placing item i in the `columnsTop` array in place yields the placement and array contents of one Step |
| Engine.LayoutItem | src/solid-masonry-virtual/Masonry.tsx:113-136 | one loop iteration either copies a reused placement or places the item, and advances the loop's progress by one |
| Engine.FillSpaces | src/solid-masonry-virtual/Masonry.tsx:112-137 | the loop's placements and final array contents are the pass over the items not reused, after the reused placements and the array's initial heights |
| Engine.Masonry.constructor | src/solid-masonry-virtual/Masonry.tsx:67 | mounting: `cols` zeroed columns and no placements |
| Engine.Masonry.Relayout | src/solid-masonry-virtual/Masonry.tsx:93-139 | one run of the effect. The published placements and column heights are exactly `Recompute` on the previous ones. A RangeError from a negative count leaves the placements, the array and its contents as they were. The engine stays well formed |
| Window.MinLimit | src/solid-masonry-virtual/Masonry.tsx:161 | the window's upper edge `tp - topPreloadScreenCount·innerHeight`; stated by Window.WindowAroundViewport |
| Window.MaxLimit | src/solid-masonry-virtual/Masonry.tsx:163 | the window's lower edge `tp + (bottomPreloadScreenCount + 1)·innerHeight`; stated by Window.WindowAroundViewport |
| Window.Visible | src/solid-masonry-virtual/Masonry.tsx:176-180 | the three-clause test; its meaning is stated by Window.VisibleIffOverlaps and exercised by Scenarios.WindowCases |
| Window.WindowAroundViewport | src/solid-masonry-virtual/Masonry.tsx:156-163 | with non-negative preload counts and viewport height, [minLimit, maxLimit] contains the viewport and spans top + bottom + 1 viewport heights |
| Window.Filter | src/solid-masonry-virtual/Masonry.tsx:167-183 | keeps only placements of the list that pass the three-clause test |
| Window.FilterComplete | src/solid-masonry-virtual/Masonry.tsx:167-183 | drops nothing that passes the test |
| Window.FilterInOrder | src/solid-masonry-virtual/Masonry.tsx:167-183 | for placements that record their own list positions (as well-formed states do), keeps list order: the kept placements sit at strictly increasing positions of the list |
| Window.RenderSet | src/solid-masonry-virtual/Masonry.tsx:142-185 | [] with nothing laid out, every placement when not virtual, otherwise exactly the placements that pass the test against [minLimit, maxLimit] |
| Window.RenderSetInOrder | src/solid-masonry-virtual/Masonry.tsx:142-185 | for placements that record their own list positions (as well-formed states do), the render set lists them in list order, windowed or not |
| Window.VisibleIffOverlaps | src/solid-masonry-virtual/Masonry.tsx:176-180 | for a non-empty window and a non-negative height, the three clauses mean "the item's span meets the window" |
| Window.RenderSetSelectsOverlapping | src/solid-masonry-virtual/Masonry.tsx:156-183 | with windowing on, non-negative preload counts and viewport height, and every placement's top no greater than its bottom, a placement is rendered exactly when its span meets the window |
| Window.FullPassWindowing | src/solid-masonry-virtual/Masonry.tsx:142-185 | with windowing on, non-negative preload counts and viewport height, and every item's height non-negative, the placements of a full pass are rendered exactly when they meet the window |
| Window.RenderList | src/solid-masonry-virtual/Masonry.tsx:142-185 | the loop returns exactly the render set, for `tp = -contentTop + parentTop` |
| Scenarios.DefaultColumnCounts | src/solid-masonry-virtual/Masonry.tsx:35-37 | with the default minimum width 220, minimum 2 and maximum 10: 500 px gives 2, 430 px gives 2 (minimum), 1000 px gives 4, 0 gives 0, 5000 px gives 10 (clamped) |
| Scenarios.DefaultItemWidth | src/solid-masonry-virtual/Masonry.tsx:70-78 | 500 px in 2 columns with the default 15 px gap: 243 px per column |
| Scenarios.TieGoesLeft | src/solid-masonry-virtual/Masonry.tsx:188-190 | equal heights send the item to the leftmost of them |
| Scenarios.TwoItemsTwoColumns | src/solid-masonry-virtual/Masonry.tsx:112-137 | heights 100 and 50 in two columns with gap 10: column heights [110, 60] |
| Scenarios.ThreeItemsTwoColumns | src/solid-masonry-virtual/Masonry.tsx:112-137 | a third item of height 80 goes to column 1 at top 60 and left 210; heights [110, 150]; container 150 |
| Scenarios.AppendMatchesOnePass | src/solid-masonry-virtual/Masonry.tsx:104-137 | appending the third item through the cache gives the one-pass layout |
| Scenarios.TwoItemsThreeColumns | src/solid-masonry-virtual/Masonry.tsx:112-137 | the same two items in three columns: heights [110, 60, 0] |
| Scenarios.RebuiltAfterWidening | src/solid-masonry-virtual/Masonry.tsx:108-137 | a pass from scratch in three columns puts the third item at the top of column 2 |
| Scenarios.CachedAfterWidening | src/solid-masonry-virtual/Masonry.tsx:104-106 | the cache path after widening keeps two column heights and puts the third item in column 1 at top 60 |
| Scenarios.CacheKeepsOldColumns | src/solid-masonry-virtual/Masonry.tsx:104-109 | the cache path after widening differs from the pass from scratch |
| Scenarios.DefaultWindowIsViewport | src/solid-masonry-virtual/Masonry.tsx:161-163 | with the default preload counts [0, 0] the window is the viewport itself |
| Scenarios.WindowCases | src/solid-masonry-virtual/Masonry.tsx:176-180 | items below and above the window are dropped; one with only its top inside is kept by the first clause, one with only its bottom inside by the second, one covering the window by the third |

## Left out

- DOM measurement and Solid's reactivity. The container width (`useElementSize`), `contentTop` (`useElementBounding`), the parent's `offsetTop` and `clientHeight`, and the heights from `calcItemHeight` are parameters. When the effect re-runs is not modelled.
- The rendered JSX is left out: the `For` over the render set, the inline styles, `rowKey` ids, `padding` and `isNumber`. They describe markup, not layout.
- Floating-point arithmetic is not modelled. Widths, heights, gaps and offsets are integers, and `NaN` widths or heights are not modelled. `Math.floor` and `Math.ceil` are modelled exactly on integers.
- Sizing.ColumnCount: requires `itemMinWidth > 0`; a zero or negative minimum width is not modelled. With 0 and a positive width, `Math.floor(width / 0)` is `Infinity`: a non-zero `maxColumnCount` clamps it, so the source lays out `maxColumnCount` columns, and only with `maxColumnCount` 0 does the count stay `Infinity`. A negative minimum width gives a negative floor quotient and so a negative count; that configuration is not modelled either.
- Non-numeric or missing option values are not modelled. The model takes the merged options, defaults included, as plain integers. A `maxColumnCount` of 0 turns the clamp off, as the source's truthiness test does.
- Engine.FillSpaces: the preallocated `new Array(length)` of placements is a sequence appended in index order. The loop fills it strictly in that order, so the contents agree, though the sparse array itself is not represented.
- Engine.Masonry.Relayout: the fresh `columnsTop` array on the reset path is stated only as "the old array or a fresh one". Nothing else aliases it.
- Layout.FullPassBalanced and Layout.ExtendKeepsBalance: stated only for item heights plus gap in [0, b]. With negative heights the shortest-first rule gives no balance bound.
- The example application is not part of this model: `src/example/Example.tsx`, `useMasonry.ts` and `useApp.ts` (data loading, the demo height function).
