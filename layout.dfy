/** The layout pass as values: where each item is placed, how the column
    heights grow, and when earlier placements are reused. */
module Layout {
  import opened Sizing
  import opened Columns

  /** Where one item sits (the component's SpaceOption record). */
  datatype Placement<T> = Placement(
    index: int,    // position in the item list
    item: T,       // the item itself
    column: int,   // the column it was assigned to
    top: int,      // offset from the top of the container, px
    left: int,     // offset from the left of the container, px
    bottom: int,   // top + height
    height: int    // what the height oracle reported
  )

  /** The engine's state: the published placements and the running column heights. */
  datatype State<T> = State(placements: seq<Placement<T>>, tops: seq<int>)

  /** `new Array(n).fill(0)`. */
  function Zeros(n: nat): (z: seq<int>)
    ensures |z| == n
    ensures forall i :: 0 <= i < n ==> z[i] == 0
  {
    if n == 0 then [] else Zeros(n - 1) + [0]
  }

  /** What every state the engine publishes satisfies: placement k records
      index k and a column that exists, and placements imply columns. */
  predicate WellFormed<T>(s: State<T>) {
    && (|s.placements| > 0 ==> |s.tops| > 0)
    && forall k :: 0 <= k < |s.placements| ==>
         s.placements[k].index == k && 0 <= s.placements[k].column < |s.tops|
  }

  /** Left offset of column c: c columns of `width` px, each followed by a gap. */
  function ColumnLeft(width: int, gap: int, c: int): int {
    (width + gap) * c
  }

  /** The column offsets tile the container: consecutive columns are one
      column width plus one gap apart, the first starts at the left edge,
      and the last ends at the container's right edge, overshooting it by
      less than one pixel per column from rounding the width up. */
  lemma ColumnsSpanContainer(contentWidth: int, cols: int, gap: int)
    requires contentWidth != 0 && cols > 0
    ensures var w := ItemWidth(contentWidth, cols, gap);
      && ColumnLeft(w, gap, 0) == 0
      && (forall c :: 0 <= c < cols - 1 ==> ColumnLeft(w, gap, c + 1) == ColumnLeft(w, gap, c) + w + gap)
      && contentWidth <= ColumnLeft(w, gap, cols - 1) + w < contentWidth + cols
  {
    var w := ItemWidth(contentWidth, cols, gap);
    ItemWidthCoversContainer(contentWidth, cols, gap);
    assert ColumnLeft(w, gap, cols - 1) + w == cols * w + gap * (cols - 1);
  }

  /** One iteration of the layout loop: one more placement, after the
      earlier ones, which stay as they are; StepPlaces says where it goes. */
  function Step<T>(s: State<T>, item: T, width: int, gap: int, heightOf: (T, int) -> int): (s': State<T>)
    requires |s.tops| > 0
    ensures |s'.tops| == |s.tops|
    ensures |s'.placements| == |s.placements| + 1
    ensures s'.placements[..|s.placements|] == s.placements
  {
    var c := ShortestColumn(s.tops);
    var h := heightOf(item, width);
    var top := s.tops[c];
    var p := Placement(|s.placements|, item, c, top, ColumnLeft(width, gap, c), top + h, h);
    State(s.placements + [p], s.tops[c := top + h + gap])
  }

  /** The placement a Step adds: the next index, in the first shortest
      column, at that column's current height, spanning the item's height;
      only that column grows, by the item's height plus the gap. */
  lemma StepPlaces<T>(s: State<T>, item: T, width: int, gap: int, heightOf: (T, int) -> int)
    requires |s.tops| > 0
    ensures var s' := Step(s, item, width, gap, heightOf);
      var p := s'.placements[|s.placements|];
      && p.index == |s.placements| && p.item == item
      && IsFirstMinimum(s.tops, p.column)
      && p.top == s.tops[p.column]
      && p.left == ColumnLeft(width, gap, p.column)
      && p.height == heightOf(item, width) && p.bottom == p.top + p.height
      && s'.tops[p.column] == s.tops[p.column] + p.height + gap
      && forall j :: 0 <= j < |s.tops| && j != p.column ==> s'.tops[j] == s.tops[j]
  {
  }

  /** The choice of column is all there is to a Step: when c is the first
      shortest column, the Step places the item in c and grows c alone. */
  lemma StepAt<T>(s: State<T>, item: T, width: int, gap: int, heightOf: (T, int) -> int, c: int)
    requires IsFirstMinimum(s.tops, c)
    ensures var h := heightOf(item, width);
      Step(s, item, width, gap, heightOf)
      == State(s.placements + [Placement(|s.placements|, item, c, s.tops[c], ColumnLeft(width, gap, c), s.tops[c] + h, h)],
               s.tops[c := s.tops[c] + h + gap])
  {
    FirstMinimumIsUnique(s.tops, c);
  }

  /** Lays the items out one after another, in list order, after the
      placements already in s; these are kept as they are. */
  function Extend<T>(s: State<T>, items: seq<T>, width: int, gap: int, heightOf: (T, int) -> int): (s': State<T>)
    requires |s.tops| > 0 || |items| == 0
    ensures |s'.tops| == |s.tops|
    ensures |s'.placements| == |s.placements| + |items|
    ensures s'.placements[..|s.placements|] == s.placements
    decreases |items|
  {
    if |items| == 0 then s
    else
      var s1 := Extend(s, items[..|items| - 1], width, gap, heightOf);
      Step(s1, items[|items| - 1], width, gap, heightOf)
  }

  /** One full pass over the items from zeroed columns. */
  function FullPass<T>(cols: nat, items: seq<T>, width: int, gap: int, heightOf: (T, int) -> int): (s: State<T>)
    requires cols > 0
    ensures |s.tops| == cols && |s.placements| == |items|
    ensures WellFormed(s)
  {
    ExtendWellFormed(State([], Zeros(cols)), items, width, gap, heightOf);
    Extend(State([], Zeros(cols)), items, width, gap, heightOf)
  }

  /** What one run of the layout effect ends in: the state it publishes,
      or the RangeError that `new Array(n)` throws for a negative n. */
  datatype Outcome<T> = Laid(state: State<T>) | InvalidArrayLength

  /** What one run of the layout effect makes of the previous state, for
      `cols` columns of `width` px over the current item list. No columns:
      the placements are cleared and the column heights left alone. The
      list grew and something was laid out before: the old placements are
      copied and only the new items are placed, on the old column heights,
      whatever `cols` now is. Otherwise the columns restart at zero and
      every item is placed; a negative count makes that restart throw. */
  function Recompute<T>(prev: State<T>, cols: int, items: seq<T>, width: int, gap: int, heightOf: (T, int) -> int): (r: Outcome<T>)
    requires WellFormed(prev)
    ensures r.InvalidArrayLength? <==> cols < 0 && !(0 < |prev.placements| < |items|)
    ensures r.Laid? ==> WellFormed(r.state)
    ensures cols == 0 ==> r == Laid(State([], prev.tops))
    ensures cols != 0 && r.Laid? ==> |r.state.placements| == |items|
    ensures cols != 0 && 0 < |prev.placements| < |items| ==>
      r.Laid? && r.state.placements[..|prev.placements|] == prev.placements && |r.state.tops| == |prev.tops| > 0
    ensures cols > 0 && !(0 < |prev.placements| < |items|) ==> r.Laid? && |r.state.tops| == cols
    ensures cols != 0 && 0 < |prev.placements| < |items| ==>
      r == Laid(Extend(prev, items[|prev.placements|..], width, gap, heightOf))
    ensures cols > 0 && !(0 < |prev.placements| < |items|) ==> r == Laid(FullPass(cols, items, width, gap, heightOf))
  {
    if cols == 0 then Laid(State([], prev.tops))
    else if 0 < |prev.placements| < |items| then
      ExtendWellFormed(prev, items[|prev.placements|..], width, gap, heightOf);
      Laid(Extend(prev, items[|prev.placements|..], width, gap, heightOf))
    else if cols < 0 then InvalidArrayLength
    else
      Laid(FullPass(cols, items, width, gap, heightOf))
  }

  /** An empty item list on measured columns: nothing is placed, every
      column is back at zero, and the container reports a height of 0. */
  lemma EmptyListReportsZero<T>(prev: State<T>, cols: nat, width: int, gap: int, heightOf: (T, int) -> int)
    requires WellFormed(prev) && cols > 0
    ensures var r := Recompute(prev, cols, [], width, gap, heightOf);
      r.Laid? && r.state.placements == [] && ContainerHeight(r.state.tops) == Some(0)
  {
    var r := Recompute(prev, cols, [], width, gap, heightOf);
    assert r == Laid(State([], Zeros(cols)));
    var m := MaxOf(Zeros(cols));
    assert m in Zeros(cols);
  }

  /** Laying out one more item of the list is one more Step. */
  lemma ExtendOneMore<T>(s: State<T>, items: seq<T>, from: nat, i: nat, width: int, gap: int, heightOf: (T, int) -> int)
    requires |s.tops| > 0
    requires from <= i < |items|
    ensures Extend(s, items[from..i + 1], width, gap, heightOf)
         == Step(Extend(s, items[from..i], width, gap, heightOf), items[i], width, gap, heightOf)
  {
    assert items[from..i + 1][..i - from] == items[from..i];
  }

  /** Extending keeps the state well formed. */
  lemma {:induction false} ExtendWellFormed<T>(s: State<T>, items: seq<T>, width: int, gap: int, heightOf: (T, int) -> int)
    requires WellFormed(s)
    requires |s.tops| > 0 || |items| == 0
    ensures WellFormed(Extend(s, items, width, gap, heightOf))
    decreases |items|
  {
    if |items| > 0 {
      var s1 := Extend(s, items[..|items| - 1], width, gap, heightOf);
      ExtendWellFormed(s, items[..|items| - 1], width, gap, heightOf);
      var s' := Step(s1, items[|items| - 1], width, gap, heightOf);
      StepPlaces(s1, items[|items| - 1], width, gap, heightOf);
      assert s' == Extend(s, items, width, gap, heightOf);
      forall k | 0 <= k < |s'.placements|
        ensures s'.placements[k].index == k && 0 <= s'.placements[k].column < |s'.tops|
      {
        if k < |s1.placements| {
          assert s'.placements[k] == s1.placements[k];
        }
      }
    }
  }

  /** Incremental equivalence: laying out a and then b gives exactly the
      state that laying out a + b in one go gives. */
  lemma {:induction false} ExtendAppend<T>(s: State<T>, a: seq<T>, b: seq<T>, width: int, gap: int, heightOf: (T, int) -> int)
    requires |s.tops| > 0 || |a + b| == 0
    ensures Extend(Extend(s, a, width, gap, heightOf), b, width, gap, heightOf) == Extend(s, a + b, width, gap, heightOf)
    decreases |b|
  {
    if |b| == 0 {
      assert a + b == a;
    } else {
      var b' := b[..|b| - 1];
      assert (a + b)[..|a + b| - 1] == a + b';
      assert (a + b)[|a + b| - 1] == b[|b| - 1];
      ExtendAppend(s, a, b', width, gap, heightOf);
    }
  }

  /** Later items never move earlier ones: the placements of a prefix of
      the list are a prefix of the placements of the whole list. */
  lemma PrefixStable<T>(s: State<T>, items: seq<T>, j: nat, width: int, gap: int, heightOf: (T, int) -> int)
    requires |s.tops| > 0 || |items| == 0
    requires j <= |items|
    ensures Extend(s, items[..j], width, gap, heightOf).placements
         == Extend(s, items, width, gap, heightOf).placements[..|s.placements| + j]
  {
    var front, back := items[..j], items[j..];
    assert front + back == items;
    ExtendAppend(s, front, back, width, gap, heightOf);
    var a := Extend(s, front, width, gap, heightOf);
    assert Extend(a, back, width, gap, heightOf).placements[..|a.placements|] == a.placements;
  }

  /** The k-th placement of a pass records item k, sits in the first
      shortest column of the heights left by the items before it, at that
      column's height, and has bottom = top + height. */
  lemma PlacementAt<T>(s: State<T>, items: seq<T>, k: nat, width: int, gap: int, heightOf: (T, int) -> int)
    requires |s.tops| > 0
    requires |s.placements| <= k < |s.placements| + |items|
    ensures var i := k - |s.placements|;
      var before := Extend(s, items[..i], width, gap, heightOf);
      var p := Extend(s, items, width, gap, heightOf).placements[k];
      && p.index == k && p.item == items[i]
      && IsFirstMinimum(before.tops, p.column)
      && p.top == before.tops[p.column]
      && p.left == ColumnLeft(width, gap, p.column)
      && p.height == heightOf(items[i], width)
      && p.bottom == p.top + p.height
  {
    var i := k - |s.placements|;
    var before := Extend(s, items[..i], width, gap, heightOf);
    var after := Extend(s, items[..i + 1], width, gap, heightOf);
    assert after == Step(before, items[i], width, gap, heightOf) by {
      assert items[..i + 1][..i] == items[..i];
      assert items[..i + 1][i] == items[i];
    }
    StepPlaces(before, items[i], width, gap, heightOf);
    PrefixStable(s, items, i + 1, width, gap, heightOf);
    assert Extend(s, items, width, gap, heightOf).placements[k] == after.placements[k];
  }

  /** Height (item plus the gap after it) that the placements put into column c. */
  function ColumnLoad<T>(ps: seq<Placement<T>>, c: int, gap: int): int
    decreases |ps|
  {
    if |ps| == 0 then 0
    else
      var p := ps[|ps| - 1];
      ColumnLoad(ps[..|ps| - 1], c, gap) + (if p.column == c then p.height + gap else 0)
  }

  lemma {:induction false} ColumnLoadAppend<T>(a: seq<Placement<T>>, b: seq<Placement<T>>, c: int, gap: int)
    ensures ColumnLoad(a + b, c, gap) == ColumnLoad(a, c, gap) + ColumnLoad(b, c, gap)
    decreases |b|
  {
    if |b| == 0 {
      assert a + b == a;
    } else {
      assert (a + b)[..|a + b| - 1] == a + b[..|b| - 1];
      ColumnLoadAppend(a, b[..|b| - 1], c, gap);
    }
  }

  lemma {:induction false} ColumnLoadElsewhere<T>(ps: seq<Placement<T>>, c: int, gap: int)
    requires forall k :: 0 <= k < |ps| ==> ps[k].column != c
    ensures ColumnLoad(ps, c, gap) == 0
    decreases |ps|
  {
    if |ps| > 0 {
      ColumnLoadElsewhere(ps[..|ps| - 1], c, gap);
    }
  }

  /** Column sums, measured from the heights `tops0` the pass started on
      and from the placement at position n: each column's height is its
      starting height plus the load the new placements put into it, and
      each new placement sits exactly on the load placed before it in its
      column. */
  predicate ColumnSums<T>(tops0: seq<int>, s: State<T>, n: nat, gap: int) {
    && n <= |s.placements|
    && |s.tops| == |tops0|
    && (forall c :: 0 <= c < |tops0| ==>
          s.tops[c] == tops0[c] + ColumnLoad(s.placements[n..], c, gap))
    && (forall k :: n <= k < |s.placements| ==>
          && 0 <= s.placements[k].column < |tops0|
          && s.placements[k].top
             == tops0[s.placements[k].column] + ColumnLoad(s.placements[n..k], s.placements[k].column, gap))
  }

  lemma StepKeepsColumnSums<T>(tops0: seq<int>, s: State<T>, item: T, n: nat, width: int, gap: int, heightOf: (T, int) -> int)
    requires |s.tops| > 0
    requires ColumnSums(tops0, s, n, gap)
    ensures ColumnSums(tops0, Step(s, item, width, gap, heightOf), n, gap)
  {
    var s' := Step(s, item, width, gap, heightOf);
    StepPlaces(s, item, width, gap, heightOf);
    var m := |s.placements|;
    var p := s'.placements[m];
    assert s'.placements[..m] == s.placements;
    assert s'.placements[n..][..|s'.placements[n..]| - 1] == s.placements[n..];
    assert s'.placements[n..][|s'.placements[n..]| - 1] == p;
    forall c | 0 <= c < |tops0|
      ensures s'.tops[c] == tops0[c] + ColumnLoad(s'.placements[n..], c, gap)
    {
    }
    forall k | n <= k < |s'.placements|
      ensures && 0 <= s'.placements[k].column < |tops0|
              && s'.placements[k].top
                 == tops0[s'.placements[k].column] + ColumnLoad(s'.placements[n..k], s'.placements[k].column, gap)
    {
      if k < m {
        assert s'.placements[k] == s.placements[k];
        assert s'.placements[n..k] == s.placements[n..k];
      } else {
        assert s'.placements[n..k] == s.placements[n..];
      }
    }
  }

  lemma {:induction false} ExtendColumnSums<T>(s: State<T>, items: seq<T>, width: int, gap: int, heightOf: (T, int) -> int)
    requires |s.tops| > 0
    ensures ColumnSums(s.tops, Extend(s, items, width, gap, heightOf), |s.placements|, gap)
    decreases |items|
  {
    if |items| == 0 {
      assert s.placements[|s.placements|..] == [];
    } else {
      var init := items[..|items| - 1];
      ExtendColumnSums(s, init, width, gap, heightOf);
      StepKeepsColumnSums(s.tops, Extend(s, init, width, gap, heightOf), items[|items| - 1], |s.placements|, width, gap, heightOf);
    }
  }

  /** Consecutive items of one column are spaced by exactly the gap: when
      no placement between i and j uses the column of i, and j does, j
      starts one gap below the bottom of i. */
  lemma ColumnSpacing<T>(s: State<T>, items: seq<T>, i: nat, j: nat, width: int, gap: int, heightOf: (T, int) -> int)
    requires |s.tops| > 0
    requires |s.placements| <= i < j < |s.placements| + |items|
    requires var ps := Extend(s, items, width, gap, heightOf).placements;
      && ps[j].column == ps[i].column
      && forall k :: i < k < j ==> ps[k].column != ps[i].column
    ensures var ps := Extend(s, items, width, gap, heightOf).placements;
      ps[j].top == ps[i].bottom + gap
  {
    ExtendColumnSums(s, items, width, gap, heightOf);
    PlacementAt(s, items, i, width, gap, heightOf);
    SpacingFromSums(s.tops, Extend(s, items, width, gap, heightOf), |s.placements|, i, j, gap);
  }

  lemma SpacingFromSums<T>(tops0: seq<int>, st: State<T>, n: nat, i: nat, j: nat, gap: int)
    requires ColumnSums(tops0, st, n, gap)
    requires n <= i < j < |st.placements|
    requires st.placements[i].bottom == st.placements[i].top + st.placements[i].height
    requires st.placements[j].column == st.placements[i].column
    requires forall k :: i < k < j ==> st.placements[k].column != st.placements[i].column
    ensures st.placements[j].top == st.placements[i].bottom + gap
  {
    var ps := st.placements;
    var c := ps[i].column;
    assert ps[i].top == tops0[c] + ColumnLoad(ps[n..i], c, gap);
    assert ps[j].top == tops0[c] + ColumnLoad(ps[n..j], c, gap);
    var between := ps[i + 1..j];
    forall k | 0 <= k < |between|
      ensures between[k].column != c
    {
      assert between[k] == ps[i + 1 + k];
    }
    ColumnLoadElsewhere(between, c, gap);
    LoadAcross(ps, n, i, j, c, gap);
    LoadOfOne(ps[i], gap);
  }

  /** The load of ps[n..j] splits at position i into the load before it,
      the placement at i, and the load after it. */
  lemma LoadAcross<T>(ps: seq<Placement<T>>, n: nat, i: nat, j: nat, c: int, gap: int)
    requires n <= i < j <= |ps|
    ensures ColumnLoad(ps[n..j], c, gap)
         == ColumnLoad(ps[n..i], c, gap) + ColumnLoad([ps[i]], c, gap) + ColumnLoad(ps[i + 1..j], c, gap)
  {
    var front, mid, back := ps[n..i], [ps[i]], ps[i + 1..j];
    assert ps[n..j] == (front + mid) + back;
    ColumnLoadAppend(front + mid, back, c, gap);
    ColumnLoadAppend(front, mid, c, gap);
  }

  /** The load a single placement puts into its own column. */
  lemma LoadOfOne<T>(p: Placement<T>, gap: int)
    ensures ColumnLoad([p], p.column, gap) == p.height + gap
  {
    assert [p][..0] == [];
  }

  /** Column heights differ by at most b when they start that way and every
      item's height plus gap lies in [0, b]: the shortest-column rule keeps
      the columns balanced to within one item. */
  predicate SpreadAtMost(tops: seq<int>, b: int) {
    forall i, j :: 0 <= i < |tops| && 0 <= j < |tops| ==> tops[i] - tops[j] <= b
  }

  lemma {:induction false} ExtendKeepsBalance<T>(s: State<T>, items: seq<T>, width: int, gap: int, heightOf: (T, int) -> int, b: int)
    requires |s.tops| > 0
    requires SpreadAtMost(s.tops, b)
    requires forall k :: 0 <= k < |items| ==> 0 <= heightOf(items[k], width) + gap <= b
    ensures SpreadAtMost(Extend(s, items, width, gap, heightOf).tops, b)
    decreases |items|
  {
    if |items| > 0 {
      var init := items[..|items| - 1];
      var s1 := Extend(s, init, width, gap, heightOf);
      assert forall k :: 0 <= k < |init| ==> init[k] == items[k];
      ExtendKeepsBalance(s, init, width, gap, heightOf, b);
      var x := items[|items| - 1];
      var s' := Step(s1, x, width, gap, heightOf);
      StepPlaces(s1, x, width, gap, heightOf);
      assert s' == Extend(s, items, width, gap, heightOf);
      var c := s'.placements[|s1.placements|].column;
      forall i, j | 0 <= i < |s'.tops| && 0 <= j < |s'.tops|
        ensures s'.tops[i] - s'.tops[j] <= b
      {
        assert s1.tops[c] <= s1.tops[j] && s1.tops[c] <= s1.tops[i];
      }
    }
  }

  /** Every placement from position `from` on ends at least one gap above
      the height of its column. */
  predicate BottomsBelowTops<T>(s: State<T>, from: nat, gap: int) {
    forall k :: from <= k < |s.placements| ==>
      && 0 <= s.placements[k].column < |s.tops|
      && s.placements[k].bottom + gap <= s.tops[s.placements[k].column]
  }

  lemma StepKeepsBottomsBelowTops<T>(s: State<T>, item: T, from: nat, width: int, gap: int, heightOf: (T, int) -> int)
    requires |s.tops| > 0
    requires BottomsBelowTops(s, from, gap)
    requires heightOf(item, width) + gap >= 0
    ensures BottomsBelowTops(Step(s, item, width, gap, heightOf), from, gap)
  {
    var s' := Step(s, item, width, gap, heightOf);
    StepPlaces(s, item, width, gap, heightOf);
    var m := |s.placements|;
    assert forall j :: 0 <= j < |s.tops| ==> s.tops[j] <= s'.tops[j];
    forall k | from <= k < |s'.placements|
      ensures && 0 <= s'.placements[k].column < |s'.tops|
              && s'.placements[k].bottom + gap <= s'.tops[s'.placements[k].column]
    {
      if k < m {
        assert s'.placements[k] == s'.placements[..m][k];
      }
    }
  }

  /** With item heights plus gap never negative, every new placement ends
      at least one gap above the height of its column. */
  lemma {:induction false} ExtendBottomsBelowTops<T>(s: State<T>, items: seq<T>, width: int, gap: int, heightOf: (T, int) -> int)
    requires |s.tops| > 0
    requires forall k :: 0 <= k < |items| ==> heightOf(items[k], width) + gap >= 0
    ensures BottomsBelowTops(Extend(s, items, width, gap, heightOf), |s.placements|, gap)
    decreases |items|
  {
    if |items| > 0 {
      var init := items[..|items| - 1];
      assert forall k :: 0 <= k < |init| ==> init[k] == items[k];
      ExtendBottomsBelowTops(s, init, width, gap, heightOf);
      var x := items[|items| - 1];
      assert heightOf(x, width) + gap >= 0;
      StepKeepsBottomsBelowTops(Extend(s, init, width, gap, heightOf), x, |s.placements|, width, gap, heightOf);
    }
  }

  /** After a full pass every column's height is the load of its
      placements, and every placement sits on the load placed before it in
      its column: a column's height is the total height assigned to it. */
  lemma FullPassColumnSums<T>(cols: nat, items: seq<T>, width: int, gap: int, heightOf: (T, int) -> int)
    requires cols > 0
    ensures var s := FullPass(cols, items, width, gap, heightOf);
      && (forall c :: 0 <= c < cols ==> s.tops[c] == ColumnLoad(s.placements, c, gap))
      && (forall k :: 0 <= k < |s.placements| ==>
            s.placements[k].top == ColumnLoad(s.placements[..k], s.placements[k].column, gap))
  {
    var s0 := State([], Zeros(cols));
    var s := FullPass(cols, items, width, gap, heightOf);
    ExtendColumnSums(s0, items, width, gap, heightOf);
    assert ColumnSums(Zeros(cols), s, 0, gap);
    assert s.placements[0..] == s.placements;
    forall c | 0 <= c < cols
      ensures s.tops[c] == ColumnLoad(s.placements, c, gap)
    {
      assert s.tops[c] == Zeros(cols)[c] + ColumnLoad(s.placements[0..], c, gap);
    }
    forall k | 0 <= k < |s.placements|
      ensures s.placements[k].top == ColumnLoad(s.placements[..k], s.placements[k].column, gap)
    {
      assert s.placements[0..k] == s.placements[..k];
      assert s.placements[k].top
          == Zeros(cols)[s.placements[k].column] + ColumnLoad(s.placements[0..k], s.placements[k].column, gap);
    }
  }

  /** After a full pass no column is more than b taller than another, when
      every item's height plus gap lies in [0, b]. */
  lemma FullPassBalanced<T>(cols: nat, items: seq<T>, width: int, gap: int, heightOf: (T, int) -> int, b: int)
    requires cols > 0 && b >= 0
    requires forall k :: 0 <= k < |items| ==> 0 <= heightOf(items[k], width) + gap <= b
    ensures SpreadAtMost(FullPass(cols, items, width, gap, heightOf).tops, b)
  {
    ExtendKeepsBalance(State([], Zeros(cols)), items, width, gap, heightOf, b);
  }

  /** The reported container height is at least the bottom of every
      placement of a full pass, so native scrolling reaches every item,
      when the gap and every item's height plus gap are non-negative. */
  lemma FullPassContainerCovers<T>(cols: nat, items: seq<T>, width: int, gap: int, heightOf: (T, int) -> int)
    requires cols > 0 && gap >= 0
    requires forall k :: 0 <= k < |items| ==> heightOf(items[k], width) + gap >= 0
    ensures var s := FullPass(cols, items, width, gap, heightOf);
      && ContainerHeight(s.tops).Some?
      && forall k :: 0 <= k < |s.placements| ==> s.placements[k].bottom <= ContainerHeight(s.tops).value
  {
    ExtendBottomsBelowTops(State([], Zeros(cols)), items, width, gap, heightOf);
  }

  /** The cache is sound for a list that only grew: when the previous
      state is a full pass over a prefix of the list, with the same columns,
      width, gap and heights, recomputing gives the full pass over the
      whole list (and re-running on an unchanged list changes nothing). */
  lemma CacheAgreesWithFullPass<T>(cols: nat, items: seq<T>, p: nat, width: int, gap: int, heightOf: (T, int) -> int)
    requires cols > 0 && p <= |items|
    ensures Recompute(FullPass(cols, items[..p], width, gap, heightOf), cols, items, width, gap, heightOf)
         == Laid(FullPass(cols, items, width, gap, heightOf))
  {
    var prev := FullPass(cols, items[..p], width, gap, heightOf);
    if 0 < p < |items| {
      var base := State([], Zeros(cols));
      assert prev == Extend(base, items[..p], width, gap, heightOf);
      assert Recompute(prev, cols, items, width, gap, heightOf) == Laid(Extend(prev, items[p..], width, gap, heightOf));
      ExtendAppend(base, items[..p], items[p..], width, gap, heightOf);
      assert items[..p] + items[p..] == items;
    } else {
      assert Recompute(prev, cols, items, width, gap, heightOf) == Laid(FullPass(cols, items, width, gap, heightOf));
    }
  }
}
