/** Concrete cases of the model on small inputs, proved as lemmas. */
module Scenarios {
  import opened Sizing
  import opened Columns
  import opened Layout
  import opened Window

  /** A height oracle that reads the height off the item itself. */
  function ByValue(item: int, width: int): int {
    item
  }

  /** 500 px with 220 px minimum columns: the floor formula gives 2; 430 px
      is narrower than two minimum widths, so the minimum count 2 applies;
      1000 px holds 4; an unmeasured container has none. */
  lemma DefaultColumnCounts()
    ensures ColumnCount(500, Defaults.itemMinWidth, Defaults.minColumnCount, Defaults.maxColumnCount) == 2
    ensures ColumnCount(430, Defaults.itemMinWidth, Defaults.minColumnCount, Defaults.maxColumnCount) == 2
    ensures ColumnCount(1000, Defaults.itemMinWidth, Defaults.minColumnCount, Defaults.maxColumnCount) == 4
    ensures ColumnCount(0, Defaults.itemMinWidth, Defaults.minColumnCount, Defaults.maxColumnCount) == 0
    ensures ColumnCount(5000, Defaults.itemMinWidth, Defaults.minColumnCount, Defaults.maxColumnCount) == 10
  {
  }

  /** Two columns in 500 px with a 15 px gap are 243 px wide each. */
  lemma DefaultItemWidth()
    ensures ItemWidth(500, 2, Defaults.gap) == 243
  {
  }

  /** Equal heights: the leftmost column wins. */
  lemma TieGoesLeft()
    ensures ShortestColumn([0, 0]) == 0
    ensures ShortestColumn([30, 10, 10]) == 1
  {
    FirstMinimumIsUnique([0, 0], 0);
    FirstMinimumIsUnique([30, 10, 10], 1);
  }

  /** Heights 100, 50, 80 in two columns with a 10 px gap: the first two
      items open the two columns, the third goes under the shorter second
      one, and the container is 150 px tall. */
  lemma ThreeItemsTwoColumns()
    ensures var s := FullPass(2, [100, 50, 80], 200, 10, ByValue);
      && s.tops == [110, 150]
      && s.placements[2].column == 1 && s.placements[2].top == 60
      && s.placements[2].left == 210
      && ContainerHeight(s.tops) == Some(150)
  {
    var s2 := FullPass(2, [100, 50], 200, 10, ByValue);
    TwoItemsTwoColumns();
    StepAt(s2, 80, 200, 10, ByValue, 1);
    assert [100, 50, 80][..2] == [100, 50];
    assert FullPass(2, [100, 50, 80], 200, 10, ByValue) == Step(s2, 80, 200, 10, ByValue);
  }

  /** Item lists only ever grow in this case: the cached result after an
      append is the one-pass result. */
  lemma AppendMatchesOnePass()
    ensures Recompute(FullPass(2, [100, 50], 200, 10, ByValue), 2, [100, 50, 80], 200, 10, ByValue)
         == Laid(FullPass(2, [100, 50, 80], 200, 10, ByValue))
  {
    CacheAgreesWithFullPass(2, [100, 50, 80], 2, 200, 10, ByValue);
    assert [100, 50, 80][..2] == [100, 50];
  }

  /** Two items laid out in two 200 px columns. */
  lemma TwoItemsTwoColumns()
    ensures var prev := FullPass(2, [100, 50], 200, 10, ByValue);
      |prev.placements| == 2 && prev.tops == [110, 60]
  {
    var s0 := State([], Zeros(2));
    assert s0.tops == [0, 0];
    StepAt(s0, 100, 200, 10, ByValue, 0);
    var s1 := Step(s0, 100, 200, 10, ByValue);
    assert s1.tops == [110, 0];
    StepAt(s1, 50, 200, 10, ByValue, 1);
    assert Extend(s0, [100], 200, 10, ByValue) == s1 by {
      assert [100][..0] == [];
    }
    var s2 := Step(s1, 50, 200, 10, ByValue);
    assert s2.tops == [110, 60];
    assert Extend(s0, [100, 50], 200, 10, ByValue) == s2 by {
      assert [100, 50][..1] == [100];
    }
    assert FullPass(2, [100, 50], 200, 10, ByValue) == s2;
  }

  /** The cached run after the container widened to three 130 px columns:
      the appended item is placed on the old two column heights. */
  lemma CachedAfterWidening()
    ensures var cached := Recompute(FullPass(2, [100, 50], 200, 10, ByValue), 3, [100, 50, 80], 130, 10, ByValue).state;
      |cached.tops| == 2 && cached.placements[2].column == 1 && cached.placements[2].top == 60
  {
    var prev := FullPass(2, [100, 50], 200, 10, ByValue);
    TwoItemsTwoColumns();
    assert [100, 50, 80][2..] == [80];
    assert [80][..0] == [];
    assert Recompute(prev, 3, [100, 50, 80], 130, 10, ByValue) == Laid(Step(prev, 80, 130, 10, ByValue));
    StepAt(prev, 80, 130, 10, ByValue, 1);
  }

  /** The same two items in three 130 px columns. */
  lemma TwoItemsThreeColumns()
    ensures var s := FullPass(3, [100, 50], 130, 10, ByValue);
      |s.placements| == 2 && s.tops == [110, 60, 0]
  {
    var t0 := State([], Zeros(3));
    assert t0.tops == [0, 0, 0];
    StepAt(t0, 100, 130, 10, ByValue, 0);
    var t1 := Step(t0, 100, 130, 10, ByValue);
    assert t1.tops == [110, 0, 0];
    StepAt(t1, 50, 130, 10, ByValue, 1);
    assert Extend(t0, [100], 130, 10, ByValue) == t1 by {
      assert [100][..0] == [];
    }
    var t2 := Step(t1, 50, 130, 10, ByValue);
    assert t2.tops == [110, 60, 0];
    assert Extend(t0, [100, 50], 130, 10, ByValue) == t2 by {
      assert [100, 50][..1] == [100];
    }
    assert FullPass(3, [100, 50], 130, 10, ByValue) == t2;
  }

  /** A full pass in three 130 px columns puts the third item at the top of
      the still empty third column. */
  lemma RebuiltAfterWidening()
    ensures var rebuilt := FullPass(3, [100, 50, 80], 130, 10, ByValue);
      |rebuilt.tops| == 3 && rebuilt.placements[2].column == 2 && rebuilt.placements[2].top == 0
  {
    var t2 := FullPass(3, [100, 50], 130, 10, ByValue);
    TwoItemsThreeColumns();
    StepAt(t2, 80, 130, 10, ByValue, 2);
    assert [100, 50, 80][..2] == [100, 50];
    assert FullPass(3, [100, 50, 80], 130, 10, ByValue) == Step(t2, 80, 130, 10, ByValue);
  }

  /** The cache path does not look at the column geometry: laid out in two
      columns, then grown by one item while the container widened to three
      columns, the new item still goes to column 1 of the old heights,
      where a pass from scratch puts it at the top of the empty column 2. */
  lemma CacheKeepsOldColumns()
    ensures Recompute(FullPass(2, [100, 50], 200, 10, ByValue), 3, [100, 50, 80], 130, 10, ByValue)
         != Laid(FullPass(3, [100, 50, 80], 130, 10, ByValue))
  {
    CachedAfterWidening();
    RebuiltAfterWidening();
  }

  /** With the default preload counts the window is the viewport itself. */
  lemma DefaultWindowIsViewport(tp: int, viewportHeight: int)
    ensures MinLimit(tp, Defaults.topPreloadScreens, viewportHeight) == tp
    ensures MaxLimit(tp, Defaults.bottomPreloadScreens, viewportHeight) == tp + viewportHeight
  {
  }

  /** A window from 0 to 800 px: an item below it and one above it are left
      out; one whose top edge alone is inside is kept by the first clause,
      one whose bottom edge alone is inside by the second, and one taller
      than the window that covers it by the third. */
  lemma WindowCases()
    ensures !Visible(Placement(0, 0, 0, 900, 0, 1000, 100), 0, 800)
    ensures !Visible(Placement(1, 0, 0, -300, 0, -100, 200), 0, 800)
    ensures Visible(Placement(2, 0, 0, 700, 0, 900, 200), 0, 800)
    ensures Visible(Placement(3, 0, 0, -100, 0, 100, 200), 0, 800)
    ensures Visible(Placement(4, 0, 0, -100, 0, 900, 1000), 0, 800)
  {
  }
}
