/** The viewport windower: which placements are materialised for the
    current scroll position, viewport height and preload margins. */
module Window {
  import opened Sizing
  import opened Layout

  /** Upper edge of the window: `topScreens` viewport heights above the
      viewport's top edge `tp`. */
  function MinLimit(tp: int, topScreens: int, viewportHeight: int): int {
    tp - topScreens * viewportHeight
  }

  /** Lower edge of the window: the viewport itself plus `bottomScreens`
      viewport heights below it. */
  function MaxLimit(tp: int, bottomScreens: int, viewportHeight: int): int {
    tp + (bottomScreens + 1) * viewportHeight
  }

  /** With non-negative preload counts and viewport height, the window
      contains the viewport [tp, tp + viewportHeight] and spans
      topScreens + bottomScreens + 1 viewport heights. */
  lemma WindowAroundViewport(tp: int, topScreens: int, bottomScreens: int, viewportHeight: int)
    requires topScreens >= 0 && bottomScreens >= 0 && viewportHeight >= 0
    ensures MinLimit(tp, topScreens, viewportHeight) <= tp
    ensures tp + viewportHeight <= MaxLimit(tp, bottomScreens, viewportHeight)
    ensures MaxLimit(tp, bottomScreens, viewportHeight) - MinLimit(tp, topScreens, viewportHeight)
         == (topScreens + bottomScreens + 1) * viewportHeight
  {
    assert topScreens * viewportHeight >= 0;
    assert bottomScreens * viewportHeight >= 0;
  }

  /** The three-clause test: the top edge is inside [lo, hi], or the bottom
      edge is, or the item reaches past both ends of the window. */
  predicate Visible<T>(p: Placement<T>, lo: int, hi: int) {
    || (lo <= p.top <= hi)
    || (lo <= p.bottom <= hi)
    || (p.top < lo && p.bottom > hi)
  }

  /** The placements that pass the test, in their original order. */
  function Filter<T>(ps: seq<Placement<T>>, lo: int, hi: int): (r: seq<Placement<T>>)
    ensures |r| <= |ps|
    ensures forall k :: 0 <= k < |r| ==> r[k] in ps && Visible(r[k], lo, hi)
    decreases |ps|
  {
    if |ps| == 0 then []
    else
      var r := Filter(ps[..|ps| - 1], lo, hi);
      var last := ps[|ps| - 1];
      assert forall k :: 0 <= k < |r| ==> r[k] in ps by {
        forall k | 0 <= k < |r| ensures r[k] in ps {
          var j :| 0 <= j < |ps| - 1 && ps[..|ps| - 1][j] == r[k];
          assert ps[j] == r[k];
        }
      }
      if Visible(last, lo, hi) then r + [last] else r
  }

  /** Nothing that passes the test is dropped. */
  lemma {:induction false} FilterComplete<T>(ps: seq<Placement<T>>, lo: int, hi: int)
    ensures forall p :: p in ps && Visible(p, lo, hi) ==> p in Filter(ps, lo, hi)
    decreases |ps|
  {
    if |ps| > 0 {
      var init := ps[..|ps| - 1];
      FilterComplete(init, lo, hi);
      assert ps == init + [ps[|ps| - 1]];
    }
  }

  /** Selection keeps the list order: over placements that record their
      own positions, the selected ones are the placements at strictly
      increasing positions. */
  lemma {:induction false} FilterInOrder<T>(ps: seq<Placement<T>>, lo: int, hi: int)
    requires forall k :: 0 <= k < |ps| ==> ps[k].index == k
    ensures forall a :: 0 <= a < |Filter(ps, lo, hi)| ==>
      0 <= Filter(ps, lo, hi)[a].index < |ps| && ps[Filter(ps, lo, hi)[a].index] == Filter(ps, lo, hi)[a]
    ensures forall a, b :: 0 <= a < b < |Filter(ps, lo, hi)| ==>
      Filter(ps, lo, hi)[a].index < Filter(ps, lo, hi)[b].index
    decreases |ps|
  {
    if |ps| > 0 {
      var init := ps[..|ps| - 1];
      assert forall k :: 0 <= k < |init| ==> init[k] == ps[k];
      FilterInOrder(init, lo, hi);
      var r0 := Filter(init, lo, hi);
      var last := ps[|ps| - 1];
      assert last.index == |init|;
      if Visible(last, lo, hi) {
        var r := r0 + [last];
        assert Filter(ps, lo, hi) == r;
        forall a, b | 0 <= a < b < |r|
          ensures r[a].index < r[b].index
        {
          assert r[a] == r0[a];
          if b < |r0| {
            assert r[b] == r0[b];
          } else {
            assert r[b] == last;
          }
        }
      }
    }
  }

  /** The render set (itemRenderList): nothing when nothing is laid out,
      every placement when windowing is off, and otherwise the placements
      that pass the test against the preloaded window around the viewport
      whose top edge is at `tp`. */
  function RenderSet<T>(spaces: seq<Placement<T>>, opts: Options, tp: int, viewportHeight: int): (r: seq<Placement<T>>)
    ensures |spaces| == 0 ==> r == []
    ensures !opts.virtual ==> r == spaces
    ensures opts.virtual ==>
      var lo := MinLimit(tp, opts.topPreloadScreens, viewportHeight);
      var hi := MaxLimit(tp, opts.bottomPreloadScreens, viewportHeight);
      && (forall k :: 0 <= k < |r| ==> r[k] in spaces && Visible(r[k], lo, hi))
      && (forall k :: 0 <= k < |spaces| && Visible(spaces[k], lo, hi) ==> spaces[k] in r)
  {
    if |spaces| == 0 then []
    else if !opts.virtual then spaces
    else
      var lo := MinLimit(tp, opts.topPreloadScreens, viewportHeight);
      var hi := MaxLimit(tp, opts.bottomPreloadScreens, viewportHeight);
      FilterComplete(spaces, lo, hi);
      Filter(spaces, lo, hi)
  }

  /** For an item of non-negative height in a non-empty window, the
      three-clause test is exactly "the item's span meets the window". */
  lemma VisibleIffOverlaps<T>(p: Placement<T>, lo: int, hi: int)
    requires lo <= hi && p.top <= p.bottom
    ensures Visible(p, lo, hi) <==> p.top <= hi && p.bottom >= lo
  {
  }

  /** With non-negative margins and viewport height, and every placement
      spanning a non-negative height, windowing selects exactly the
      placements whose span meets [minLimit, maxLimit]. */
  lemma RenderSetSelectsOverlapping<T>(spaces: seq<Placement<T>>, opts: Options, tp: int, viewportHeight: int)
    requires opts.virtual
    requires viewportHeight >= 0 && opts.topPreloadScreens >= 0 && opts.bottomPreloadScreens >= 0
    requires forall k :: 0 <= k < |spaces| ==> spaces[k].top <= spaces[k].bottom
    ensures var lo := MinLimit(tp, opts.topPreloadScreens, viewportHeight);
      var hi := MaxLimit(tp, opts.bottomPreloadScreens, viewportHeight);
      forall p :: p in RenderSet(spaces, opts, tp, viewportHeight) <==>
        p in spaces && p.top <= hi && p.bottom >= lo
  {
    var lo := MinLimit(tp, opts.topPreloadScreens, viewportHeight);
    var hi := MaxLimit(tp, opts.bottomPreloadScreens, viewportHeight);
    assert lo <= hi by {
      assert opts.topPreloadScreens * viewportHeight >= 0;
      assert (opts.bottomPreloadScreens + 1) * viewportHeight >= 0;
    }
    forall p | p in spaces
      ensures Visible(p, lo, hi) <==> p.top <= hi && p.bottom >= lo
    {
      VisibleIffOverlaps(p, lo, hi);
    }
  }

  /** The render set lists placements in list order: over placements that
      record their own positions, it holds the placements at strictly
      increasing positions, windowed or not. */
  lemma RenderSetInOrder<T>(spaces: seq<Placement<T>>, opts: Options, tp: int, viewportHeight: int)
    requires forall k :: 0 <= k < |spaces| ==> spaces[k].index == k
    ensures forall a :: 0 <= a < |RenderSet(spaces, opts, tp, viewportHeight)| ==>
      var p := RenderSet(spaces, opts, tp, viewportHeight)[a];
      0 <= p.index < |spaces| && spaces[p.index] == p
    ensures forall a, b :: 0 <= a < b < |RenderSet(spaces, opts, tp, viewportHeight)| ==>
      RenderSet(spaces, opts, tp, viewportHeight)[a].index < RenderSet(spaces, opts, tp, viewportHeight)[b].index
  {
    if |spaces| > 0 && opts.virtual {
      FilterInOrder(spaces, MinLimit(tp, opts.topPreloadScreens, viewportHeight),
                    MaxLimit(tp, opts.bottomPreloadScreens, viewportHeight));
    }
  }

  /** Windowing a full pass whose item heights are non-negative selects
      exactly the placements that meet the preloaded window. */
  lemma FullPassWindowing<T>(cols: nat, items: seq<T>, width: int, gap: int, heightOf: (T, int) -> int,
                             opts: Options, tp: int, viewportHeight: int)
    requires cols > 0 && opts.virtual
    requires viewportHeight >= 0 && opts.topPreloadScreens >= 0 && opts.bottomPreloadScreens >= 0
    requires forall k :: 0 <= k < |items| ==> heightOf(items[k], width) >= 0
    ensures var ps := FullPass(cols, items, width, gap, heightOf).placements;
      var lo := MinLimit(tp, opts.topPreloadScreens, viewportHeight);
      var hi := MaxLimit(tp, opts.bottomPreloadScreens, viewportHeight);
      forall p :: p in RenderSet(ps, opts, tp, viewportHeight) <==> p in ps && p.top <= hi && p.bottom >= lo
  {
    var ps := FullPass(cols, items, width, gap, heightOf).placements;
    forall k | 0 <= k < |ps|
      ensures ps[k].top <= ps[k].bottom
    {
      PlacementAt(State([], Zeros(cols)), items, k, width, gap, heightOf);
    }
    RenderSetSelectsOverlapping(ps, opts, tp, viewportHeight);
  }

  /** itemRenderList as the component runs it: `tp` is the viewport's
      offset into the content (`parentTop - contentTop`), and the loop keeps
      each placement that passes the test, in order. */
  method RenderList<T>(spaces: seq<Placement<T>>, opts: Options, contentTop: int, parentTop: int, innerHeight: int)
    returns (items: seq<Placement<T>>)
    ensures items == RenderSet(spaces, opts, -contentTop + parentTop, innerHeight)
  {
    var length := |spaces|;
    if length == 0 {
      return [];
    }
    if !opts.virtual {
      return spaces;
    }
    var tp := -contentTop + parentTop;
    var minLimit := tp - opts.topPreloadScreens * innerHeight;
    var maxLimit := tp + (opts.bottomPreloadScreens + 1) * innerHeight;
    items := [];
    for i := 0 to length
      invariant items == Filter(spaces[..i], minLimit, maxLimit)
    {
      var v := spaces[i];
      var t := v.top;
      var b := v.bottom;
      assert spaces[..i + 1][..i] == spaces[..i];
      if (t >= minLimit && t <= maxLimit) || (b >= minLimit && b <= maxLimit) || (t < minLimit && b > maxLimit) {
        items := items + [v];
      }
    }
    assert spaces[..length] == spaces;
  }
}
