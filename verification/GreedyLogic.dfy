/** The two-pointer scan of problems/greedy-logic.c for the largest water area between two walls. */
module GreedyLogic {

  function CalculateDistance(idx1: int, idx2: int): (d: int)
    ensures d >= 0 && (idx1 + d == idx2 || idx2 + d == idx1)
  {
    if idx1 > idx2 then idx1 - idx2 else idx2 - idx1
  }

  function CalculateWaterHeight(a: int, b: int): (h: int)
    ensures h <= a && h <= b && (h == a || h == b)
  {
    if a < b then a else b
  }

  function CalculateArea(w: int, d: int): int
  {
    w * d
  }

  /** The area between the walls at `i` and `j`. */
  ghost function Area(heights: seq<int>, i: int, j: int): int
    requires 0 <= i < |heights| && 0 <= j < |heights|
  {
    CalculateArea(CalculateWaterHeight(heights[i], heights[j]), CalculateDistance(i, j))
  }

  /** `m` is the largest of 0 and the areas of all pairs of walls. */
  ghost predicate IsMaxArea(heights: seq<int>, m: int)
  {
    && m >= 0
    && (forall i, j :: 0 <= i < j < |heights| ==> Area(heights, i, j) <= m)
    && (m == 0 || exists i, j :: 0 <= i < j < |heights| && Area(heights, i, j) == m)
  }

  /** The area of two walls is the lower height times the distance. */
  lemma AreaInFull(heights: seq<int>, i: int, j: int)
    requires 0 <= i < j < |heights|
    ensures Area(heights, i, j) == (if heights[i] < heights[j] then heights[i] else heights[j]) * (j - i)
  {
  }

  lemma MaxAreaInFull(heights: seq<int>, m: int)
    requires IsMaxArea(heights, m)
    ensures m >= 0
    ensures forall i, j :: 0 <= i < j < |heights| ==>
              (if heights[i] < heights[j] then heights[i] else heights[j]) * (j - i) <= m
    ensures m == 0 || exists i, j ::
              0 <= i < j < |heights| && (if heights[i] < heights[j] then heights[i] else heights[j]) * (j - i) == m
  {
    forall i, j | 0 <= i < j < |heights|
      ensures Area(heights, i, j) == (if heights[i] < heights[j] then heights[i] else heights[j]) * (j - i)
    {
      AreaInFull(heights, i, j);
    }
  }

  /** An area is at most that of a wall no lower, or of zero height, over a distance no shorter. */
  lemma AreaAtMost(h: int, w: int, d: int, e: int)
    requires h <= w && 0 <= d <= e
    ensures h * d <= 0 || h * d <= w * e
  {
    if h > 0 {
      assert h * d <= w * d <= w * e;
    } else {
      assert h * d <= 0;
    }
  }

  /** With the lower wall on the left, no narrower pair that uses it beats the present one or zero. */
  lemma LeftIsSpent(heights: seq<int>, left: int, right: int, j: int)
    requires 0 <= left < j <= right < |heights| && heights[left] <= heights[right]
    ensures Area(heights, left, j) <= 0 || Area(heights, left, j) <= Area(heights, left, right)
  {
    AreaAtMost(CalculateWaterHeight(heights[left], heights[j]), heights[left], j - left, right - left);
  }

  lemma RightIsSpent(heights: seq<int>, left: int, right: int, i: int)
    requires 0 <= left <= i < right < |heights| && heights[left] > heights[right]
    ensures Area(heights, i, right) <= 0 || Area(heights, i, right) <= Area(heights, left, right)
  {
    AreaAtMost(CalculateWaterHeight(heights[i], heights[right]), heights[right], right - i, right - left);
  }

  /** The linear scan finds the quadratic maximum. */
  method MaxArea(heights: array<int>) returns (maxArea: int)
    ensures IsMaxArea(heights[..], maxArea)
    ensures forall i, j :: 0 <= i < j < heights.Length ==>
              (if heights[i] < heights[j] then heights[i] else heights[j]) * (j - i) <= maxArea
    ensures maxArea == 0 || exists i, j ::
              0 <= i < j < heights.Length && (if heights[i] < heights[j] then heights[i] else heights[j]) * (j - i) == maxArea
  {
    var left, right := 0, heights.Length - 1;
    maxArea := 0;
    ghost var s := heights[..];
    while left < right
      invariant 0 <= left && right < |s| && maxArea >= 0
      invariant forall i, j :: 0 <= i < j < |s| && (i < left || j > right) ==> Area(s, i, j) <= maxArea
      invariant maxArea == 0 || exists i, j :: 0 <= i < j < |s| && Area(s, i, j) == maxArea
      decreases right - left
    {
      var distance := CalculateDistance(left, right);
      var wh := CalculateWaterHeight(heights[left], heights[right]);
      var area := CalculateArea(wh, distance);
      assert area == Area(s, left, right);
      if area > maxArea {
        maxArea := area;
      }
      if heights[left] > heights[right] {
        forall i | left <= i < right ensures Area(s, i, right) <= maxArea {
          RightIsSpent(s, left, right, i);
        }
        right := right - 1;
      } else {
        forall j | left < j <= right ensures Area(s, left, j) <= maxArea {
          LeftIsSpent(s, left, right, j);
        }
        left := left + 1;
      }
    }
    MaxAreaInFull(s, maxArea);
  }

  lemma MaxAreaUnique(heights: seq<int>, m: int, n: int)
    requires IsMaxArea(heights, m) && IsMaxArea(heights, n)
    ensures m == n
  {
  }
}
