/** The mounted masonry component: the state its layout effect keeps
    between runs, and the effect itself. */
module Engine {
  import opened Sizing
  import opened Columns
  import opened Layout

  /** Placing item i: it goes to the first shortest column, at that
      column's running height, and the column grows by the item's height
      plus the gap; this is one Step of the pass. */
  method PlaceNext<T>(columnsTop: array<int>, spaces: seq<Placement<T>>, items: seq<T>, i: int,
                      width: int, gap: int, heightOf: (T, int) -> int)
    returns (space: Placement<T>)
    requires columnsTop.Length > 0
    requires 0 <= i < |items| && i == |spaces|
    modifies columnsTop
    ensures State(spaces + [space], columnsTop[..])
         == Step(State(spaces, old(columnsTop[..])), items[i], width, gap, heightOf)
  {
    ghost var before := State(spaces, columnsTop[..]);
    var columnIndex := ShortestColumn(columnsTop[..]);
    var h := heightOf(items[i], width);
    var top := columnsTop[columnIndex];
    var left := ColumnLeft(width, gap, columnIndex);
    space := Placement(i, items[i], columnIndex, top, left, top + h, h);
    columnsTop[columnIndex] := top + h + gap;
    assert columnsTop[..] == before.tops[columnIndex := top + h + gap];
  }

  /** How far the layout loop has got after i iterations: up to `start`
      it has copied the reused placements and left the heights alone; from
      `start` on it has laid out items[start..i] after `base`. */
  ghost predicate Progress<T>(spaces: seq<Placement<T>>, tops: seq<int>, previous: seq<Placement<T>>,
                              start: nat, base: State<T>, items: seq<T>, i: nat,
                              width: int, gap: int, heightOf: (T, int) -> int)
  {
    && start <= |items| && i <= |items|
    && |base.tops| > 0 && |base.placements| == start
    && (i <= start ==> start <= |previous| && spaces == previous[..i] && tops == base.tops)
    && (start <= i ==> State(spaces, tops) == Extend(base, items[start..i], width, gap, heightOf))
  }

  /** The body of the layout loop for item i: a reused placement is copied,
      any other item is placed. */
  method LayoutItem<T>(columnsTop: array<int>, spaces: seq<Placement<T>>, previous: seq<Placement<T>>,
                       cache: bool, start: nat, items: seq<T>, i: nat,
                       width: int, gap: int, heightOf: (T, int) -> int, ghost base: State<T>)
    returns (spaces': seq<Placement<T>>)
    requires i < |items|
    requires cache ==> start == |previous| && base.placements == previous
    requires !cache ==> start == 0
    requires Progress(spaces, columnsTop[..], previous, start, base, items, i, width, gap, heightOf)
    modifies columnsTop
    ensures Progress(spaces', columnsTop[..], previous, start, base, items, i + 1, width, gap, heightOf)
  {
    if cache && i < start {
      spaces' := spaces + [previous[i]];
      assert spaces' == previous[..i + 1];
      if i + 1 == start {
        assert items[start..i + 1] == [];
        assert previous[..start] == previous;
      }
      return;
    }
    assert |spaces| == i;
    var space := PlaceNext(columnsTop, spaces, items, i, width, gap, heightOf);
    spaces' := spaces + [space];
    ExtendOneMore(base, items, start, i, width, gap, heightOf);
  }

  /** The layout loop over the whole item list. On the cache path the first
      `start` entries are copied from `previous` and only the new items are
      placed; otherwise every item is placed over freshly zeroed columns. */
  method FillSpaces<T>(columnsTop: array<int>, previous: seq<Placement<T>>, cache: bool, start: nat,
                       items: seq<T>, width: int, gap: int, heightOf: (T, int) -> int)
    returns (spaces: seq<Placement<T>>)
    requires columnsTop.Length > 0
    requires cache ==> start == |previous| < |items|
    requires !cache ==> start == 0
    modifies columnsTop
    ensures State(spaces, columnsTop[..])
         == Extend(State(if cache then previous else [], old(columnsTop[..])), items[start..|items|], width, gap, heightOf)
  {
    ghost var base := State(if cache then previous else [], columnsTop[..]);
    spaces := [];
    for i := 0 to |items|
      invariant Progress(spaces, columnsTop[..], previous, start, base, items, i, width, gap, heightOf)
    {
      spaces := LayoutItem(columnsTop, spaces, previous, cache, start, items, i, width, gap, heightOf, base);
    }
  }

  class Masonry<T> {
    /** Running height of each column; a reset replaces it by a new array of zeros. */
    var columnsTop: array<int>
    /** The published placements, one per laid-out item, in list order. */
    var itemSpaces: seq<Placement<T>>

    ghost predicate Valid()
      reads this, columnsTop
    {
      WellFormed(State(itemSpaces, columnsTop[..]))
    }

    /** Mounting: `cols` zeroed columns (the column count at mount time) and
        no placements yet. */
    constructor (cols: nat)
      ensures Valid() && fresh(columnsTop)
      ensures itemSpaces == [] && columnsTop[..] == Zeros(cols)
    {
      columnsTop := new int[cols](_ => 0);
      itemSpaces := [];
    }

    /** One run of the layout effect for a container `contentWidth` px wide
        and the current item list; `heightOf` is the item height oracle.
        `rangeError` reports that resetting to a negative column count threw,
        in which case nothing was changed. */
    method Relayout(opts: Options, contentWidth: int, items: seq<T>, heightOf: (T, int) -> int)
      returns (rangeError: bool)
      requires Valid()
      requires opts.itemMinWidth > 0
      modifies this, columnsTop
      ensures Valid()
      ensures columnsTop == old(columnsTop) || fresh(columnsTop)
      ensures var cols := ColumnCount(contentWidth, opts.itemMinWidth, opts.minColumnCount, opts.maxColumnCount);
        var r := Recompute(State(old(itemSpaces), old(columnsTop[..])), cols, items,
                           ItemWidth(contentWidth, cols, opts.gap), opts.gap, heightOf);
        && (rangeError <==> r.InvalidArrayLength?)
        && (r.InvalidArrayLength? ==>
              itemSpaces == old(itemSpaces) && columnsTop == old(columnsTop) && columnsTop[..] == old(columnsTop[..]))
        && (r.Laid? ==> State(itemSpaces, columnsTop[..]) == r.state)
    {
      var cols := ColumnCount(contentWidth, opts.itemMinWidth, opts.minColumnCount, opts.maxColumnCount);
      if cols == 0 {
        itemSpaces := [];
        assert WellFormed(State(itemSpaces, columnsTop[..]));
        return false;
      }
      var width := ItemWidth(contentWidth, cols, opts.gap);
      var length := |items|;
      var previous := itemSpaces;
      var start := 0;
      // Only when items were appended are the earlier placements reused.
      var cache := |previous| > 0 && length > |previous|;
      if cache {
        start := |previous|;
      } else {
        if cols < 0 {
          // `new Array(cols)` throws before anything is assigned.
          return true;
        }
        columnsTop := new int[cols](_ => 0);
        assert columnsTop[..] == Zeros(cols);
      }
      var spaces := FillSpaces(columnsTop, previous, cache, start, items, width, opts.gap, heightOf);
      if cache {
        assert items[start..|items|] == items[|previous|..];
      } else {
        assert items[start..|items|] == items;
      }
      itemSpaces := spaces;
      assert Recompute(State(old(itemSpaces), old(columnsTop[..])), cols, items, width, opts.gap, heightOf)
          == Laid(State(itemSpaces, columnsTop[..]));
      return false;
    }
  }
}
