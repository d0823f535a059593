/** The per-column running heights (`columnsTop`) and the questions the
    component asks of them: which column is shortest, and how tall the
    tallest is. */
module Columns {

  datatype Option<T> = None | Some(value: T)

  /** Smallest running height (Math.min over a non-empty array). */
  function MinOf(s: seq<int>): (m: int)
    requires |s| > 0
    ensures m in s
    ensures forall j :: 0 <= j < |s| ==> m <= s[j]
    decreases |s|
  {
    if |s| == 1 then s[0]
    else
      var rest := MinOf(s[1..]);
      if s[0] <= rest then s[0] else rest
  }

  /** Largest running height (Math.max over a non-empty array). */
  function MaxOf(s: seq<int>): (m: int)
    requires |s| > 0
    ensures m in s
    ensures forall j :: 0 <= j < |s| ==> s[j] <= m
    decreases |s|
  {
    if |s| == 1 then s[0]
    else
      var rest := MaxOf(s[1..]);
      if s[0] >= rest then s[0] else rest
  }

  /** Position of the first occurrence of x in s, or -1 (Array.indexOf). */
  function IndexOf(s: seq<int>, x: int): (i: int)
    ensures i == -1 <==> x !in s
    ensures i != -1 ==> 0 <= i < |s| && s[i] == x
    ensures i != -1 ==> forall j :: 0 <= j < i ==> s[j] != x
    decreases |s|
  {
    if |s| == 0 then -1
    else if s[0] == x then 0
    else
      var r := IndexOf(s[1..], x);
      if r == -1 then -1 else r + 1
  }

  /** c is a column of minimal height, and every column left of it is taller. */
  predicate IsFirstMinimum(tops: seq<int>, c: int) {
    && 0 <= c < |tops|
    && (forall j :: 0 <= j < |tops| ==> tops[c] <= tops[j])
    && (forall j :: 0 <= j < c ==> tops[j] > tops[c])
  }

  /** The column the next item goes to (getColumnIndex): the first
      column of minimal height; -1 when there are no columns, as indexOf
      reports for the Infinity that Math.min gives an empty array. */
  function ShortestColumn(tops: seq<int>): (c: int)
    ensures |tops| == 0 ==> c == -1
    ensures |tops| > 0 ==> IsFirstMinimum(tops, c)
  {
    if |tops| == 0 then -1 else IndexOf(tops, MinOf(tops))
  }

  /** The tie-break leaves no freedom: any first minimum is the chosen column. */
  lemma FirstMinimumIsUnique(tops: seq<int>, c: int)
    requires IsFirstMinimum(tops, c)
    ensures ShortestColumn(tops) == c
  {
  }

  /** Height the container reports (Math.max(...columnsTop)): the tallest
      column, or None for the -Infinity that Math.max gives no columns. */
  function ContainerHeight(tops: seq<int>): (h: Option<int>)
    ensures h.None? <==> |tops| == 0
    ensures h.Some? ==> h.value in tops && forall j :: 0 <= j < |tops| ==> tops[j] <= h.value
  {
    if |tops| == 0 then None else Some(MaxOf(tops))
  }
}
