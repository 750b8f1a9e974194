/**
 * The nails of day 4 (src/day4.rs): one height per line. Parts 1 and 2
 * hammer every nail down to the lowest one; part 3 may also pull nails up
 * and looks for the level that costs the fewest strikes, starting at the
 * median height and stepping down or up while that gets cheaper.
 */
module Day4 {
  import opened Text
  import opened Wrappers

  /** Whether every line parses as an integer: what parse::<i32>().unwrap() needs. */
  predicate Parsable(input: string)
  {
    forall i :: 0 <= i < |Lines(input)| ==> ParseInt(Lines(input)[i]).Some?
  }

  /** The heights, one per line. */
  function Heights(input: string): (nums: seq<int>)
    requires Parsable(input)
    ensures |nums| == |Lines(input)|
  {
    seq(|Lines(input)|, i requires 0 <= i < |Lines(input)| => ParseInt(Lines(input)[i]).value)
  }

  /** The smallest element: iter().min().unwrap(). */
  function Least(s: seq<int>): (m: int)
    requires |s| >= 1
    ensures m in s && forall i :: 0 <= i < |s| ==> m <= s[i]
  {
    if |s| == 1 then s[0]
    else
      var m := Least(s[1..]);
      assert forall i :: 1 <= i < |s| ==> s[i] == s[1..][i - 1];
      if s[0] <= m then s[0] else m
  }

  /** The sum of the elements. */
  function Total(s: seq<int>): int
  {
    if s == [] then 0 else s[0] + Total(s[1..])
  }

  /** The strikes to bring every element down to m: the sum of n - m. */
  function Above(s: seq<int>, m: int): int
  {
    if s == [] then 0 else (s[0] - m) + Above(s[1..], m)
  }

  /** Bringing everything down to m costs the total less m per element. */
  lemma {:induction false} AboveIsTotal(s: seq<int>, m: int)
    ensures Above(s, m) == Total(s) - |s| * m
  {
    if s != [] {
      AboveIsTotal(s[1..], m);
    }
  }

  /** Nothing below m: the cost is never negative, and it is zero exactly when everything is at m. */
  lemma {:induction false} AboveFloor(s: seq<int>, m: int)
    requires forall i :: 0 <= i < |s| ==> s[i] >= m
    ensures Above(s, m) >= 0
    ensures Above(s, m) == 0 <==> forall i :: 0 <= i < |s| ==> s[i] == m
  {
    if s != [] {
      AboveFloor(s[1..], m);
      assert forall i :: 1 <= i < |s| ==> s[i] == s[1..][i - 1];
    }
  }

  /** Part 1: the strikes to bring every nail down to the lowest. */
  function Part1(input: string): (r: int)
    requires Parsable(input) && |Lines(input)| >= 1
    ensures r >= 0
  {
    var nums := Heights(input);
    AboveFloor(nums, Least(nums));
    Above(nums, Least(nums))
  }

  /**
   * Part 1 is the sum of the heights less the lowest once per nail; it is
   * never negative, and it is zero exactly when all nails are equal.
   */
  lemma Part1Means(input: string)
    requires Parsable(input) && |Lines(input)| >= 1
    ensures Part1(input) == Total(Heights(input)) - |Heights(input)| * Least(Heights(input))
    ensures Part1(input) >= 0
    ensures Part1(input) == 0 <==> forall i, j :: 0 <= i < j < |Heights(input)| ==> Heights(input)[i] == Heights(input)[j]
  {
    var nums := Heights(input);
    AboveIsTotal(nums, Least(nums));
    AboveFloor(nums, Least(nums));
  }

  /** Part 2 is part 1. */
  function Part2(input: string): (r: int)
    requires Parsable(input) && |Lines(input)| >= 1
    ensures r >= 0
  {
    Part1Means(input);
    Part1(input)
  }

  /** |n|. */
  function Abs(n: int): nat
  {
    if n < 0 then -n else n
  }

  /** The strikes to bring every element to level t, down or up: the sum of |t - n|. */
  function Deviation(s: seq<int>, t: int): nat
  {
    if s == [] then 0 else Abs(t - s[0]) + Deviation(s[1..], t)
  }

  /** How many elements are at most t. */
  function AtMost(s: seq<int>, t: int): (k: nat)
    ensures k <= |s|
  {
    if s == [] then 0 else (if s[0] <= t then 1 else 0) + AtMost(s[1..], t)
  }

  /** Raising the level by one costs one more per element at or below it and one less per element above it. */
  lemma {:induction false} DeviationSlope(s: seq<int>, t: int)
    ensures Deviation(s, t + 1) == Deviation(s, t) + 2 * AtMost(s, t) - |s|
  {
    if s != [] {
      DeviationSlope(s[1..], t);
    }
  }

  /** A higher level has at least as many elements at or below it. */
  lemma {:induction false} AtMostGrows(s: seq<int>, a: int, b: int)
    requires a <= b
    ensures AtMost(s, a) <= AtMost(s, b)
  {
    if s != [] {
      AtMostGrows(s[1..], a, b);
    }
  }

  /** Once a step up does not get cheaper, no higher level is cheaper than its start. */
  lemma {:induction false} Rising(s: seq<int>, a: int, t: int)
    requires Deviation(s, a + 1) >= Deviation(s, a) && a <= t
    ensures Deviation(s, t) >= Deviation(s, a)
    decreases t - a
  {
    if t > a {
      Rising(s, a, t - 1);
      DeviationSlope(s, a);
      DeviationSlope(s, t - 1);
      AtMostGrows(s, a, t - 1);
    }
  }

  /** Once a step down does not get cheaper, no lower level is cheaper than its start. */
  lemma {:induction false} Falling(s: seq<int>, a: int, t: int)
    requires Deviation(s, a - 1) >= Deviation(s, a) && t <= a
    ensures Deviation(s, t) >= Deviation(s, a)
    decreases a - t
  {
    if t < a {
      Falling(s, a, t + 1);
      DeviationSlope(s, a - 1);
      DeviationSlope(s, t);
      AtMostGrows(s, t, a - 1);
    }
  }

  /** The cost is convex, so a level no worse than both its neighbours is the cheapest of all. */
  lemma LocalIsGlobal(s: seq<int>, a: int)
    requires Deviation(s, a - 1) >= Deviation(s, a) && Deviation(s, a + 1) >= Deviation(s, a)
    ensures forall t :: Deviation(s, a) <= Deviation(s, t)
  {
    forall t
      ensures Deviation(s, a) <= Deviation(s, t)
    {
      if t >= a {
        Rising(s, a, t);
      } else {
        Falling(s, a, t);
      }
    }
  }

  /** Whether s is in ascending order. */
  predicate Sorted(s: seq<int>)
  {
    forall i, j :: 0 <= i < j < |s| ==> s[i] <= s[j]
  }

  /** x placed before the first element of s it does not exceed. */
  function Insert(x: int, s: seq<int>): (r: seq<int>)
    ensures |r| == |s| + 1
  {
    if s == [] || x <= s[0] then [x] + s else [s[0]] + Insert(x, s[1..])
  }

  /** sorted(): insertion of each element into the sorted rest. */
  function Sort(s: seq<int>): (r: seq<int>)
    ensures |r| == |s|
  {
    if s == [] then [] else Insert(s[0], Sort(s[1..]))
  }

  /** Inserting into a sorted sequence keeps it sorted. */
  lemma {:induction false} InsertSorted(x: int, s: seq<int>)
    requires Sorted(s)
    ensures Sorted(Insert(x, s))
  {
    if s != [] && x > s[0] {
      InsertSorted(x, s[1..]);
      InsertPermutes(x, s[1..]);
      var r := Insert(x, s[1..]);
      forall i | 0 <= i < |r|
        ensures s[0] <= r[i]
      {
        assert r[i] in multiset(r);
        assert r[i] == x || r[i] in multiset(s[1..]);
      }
      SortedCons(s[0], r);
    } else {
      SortedCons(x, s);
    }
  }

  /** A head no greater than a sorted tail gives a sorted sequence. */
  lemma SortedCons(a: int, r: seq<int>)
    requires Sorted(r) && forall i :: 0 <= i < |r| ==> a <= r[i]
    ensures Sorted([a] + r)
  {
    var s := [a] + r;
    forall i, j | 0 <= i < j < |s|
      ensures s[i] <= s[j]
    {
      assert s[j] == r[j - 1];
      if i > 0 {
        assert s[i] == r[i - 1];
      }
    }
  }

  /** Inserting adds x once and keeps every other element. */
  lemma {:induction false} InsertPermutes(x: int, s: seq<int>)
    ensures multiset(Insert(x, s)) == multiset(s) + multiset{x}
  {
    if s != [] && x > s[0] {
      InsertPermutes(x, s[1..]);
      assert s == [s[0]] + s[1..];
    }
  }

  /** Sort returns the elements of s in ascending order. */
  lemma {:induction false} SortSorts(s: seq<int>)
    ensures Sorted(Sort(s)) && multiset(Sort(s)) == multiset(s)
  {
    if s != [] {
      SortSorts(s[1..]);
      InsertSorted(s[0], Sort(s[1..]));
      InsertPermutes(s[0], Sort(s[1..]));
      assert s == [s[0]] + s[1..];
    }
  }

  /** Inserting x adds its own cost. */
  lemma {:induction false} InsertDeviation(x: int, s: seq<int>, t: int)
    ensures Deviation(Insert(x, s), t) == Abs(t - x) + Deviation(s, t)
  {
    if s != [] && x > s[0] {
      InsertDeviation(x, s[1..], t);
      assert Insert(x, s)[1..] == Insert(x, s[1..]);
    } else {
      assert Insert(x, s)[1..] == s;
    }
  }

  /** Sorting does not change any level's cost. */
  lemma {:induction false} SortDeviation(s: seq<int>, t: int)
    ensures Deviation(Sort(s), t) == Deviation(s, t)
  {
    if s != [] {
      SortDeviation(s[1..], t);
      InsertDeviation(s[0], Sort(s[1..]), t);
    }
  }

  /** Counting over two halves. */
  lemma {:induction false} AtMostSplit(s: seq<int>, k: nat, t: int)
    requires k <= |s|
    ensures AtMost(s, t) == AtMost(s[..k], t) + AtMost(s[k..], t)
  {
    if k > 0 {
      AtMostSplit(s[1..], k - 1, t);
      assert s[1..][..k - 1] == s[..k][1..];
      assert s[1..][k - 1..] == s[k..];
    } else {
      assert s[k..] == s;
    }
  }

  /** Elements all at most t count fully; elements all above t count for nothing. */
  lemma {:induction false} AtMostAll(s: seq<int>, t: int)
    ensures (forall i :: 0 <= i < |s| ==> s[i] <= t) ==> AtMost(s, t) == |s|
    ensures (forall i :: 0 <= i < |s| ==> s[i] > t) ==> AtMost(s, t) == 0
  {
    if s != [] {
      AtMostAll(s[1..], t);
      assert forall i :: 1 <= i < |s| ==> s[i] == s[1..][i - 1];
    }
  }

  /**
   * In sorted heights the middle one, at index |s| / 2, is no worse than
   * either neighbour: at least half the elements are at or below it and at
   * most half lie below it.
   */
  lemma MedianIsLocal(s: seq<int>)
    requires Sorted(s) && |s| >= 1
    ensures Deviation(s, s[|s| / 2] - 1) >= Deviation(s, s[|s| / 2])
    ensures Deviation(s, s[|s| / 2] + 1) >= Deviation(s, s[|s| / 2])
  {
    MedianNotBelow(s);
    MedianNotAbove(s);
  }

  /** At least |s| / 2 + 1 elements are at or below the median, so stepping up does not get cheaper. */
  lemma MedianNotAbove(s: seq<int>)
    requires Sorted(s) && |s| >= 1
    ensures Deviation(s, s[|s| / 2] + 1) >= Deviation(s, s[|s| / 2])
  {
    ManyUpToMedian(s);
    DeviationSlope(s, s[|s| / 2]);
  }

  /** More than |s| / 2 elements lie at or below the median. */
  lemma ManyUpToMedian(s: seq<int>)
    requires Sorted(s) && |s| >= 1
    ensures AtMost(s, s[|s| / 2]) >= |s| / 2 + 1
  {
    var k, m := |s| / 2 + 1, s[|s| / 2];
    var low := s[..k];
    forall i | 0 <= i < k
      ensures low[i] <= m
    {
      assert low[i] == s[i];
    }
    AtMostSplit(s, k, m);
    AtMostAll(low, m);
  }

  /** At most |s| / 2 elements lie below the median. */
  lemma FewBelowMedian(s: seq<int>)
    requires Sorted(s) && |s| >= 1
    ensures AtMost(s, s[|s| / 2] - 1) <= |s| / 2
  {
    var k, t := |s| / 2, s[|s| / 2] - 1;
    var high := s[k..];
    forall i | 0 <= i < |high|
      ensures high[i] > t
    {
      assert high[i] == s[k + i];
    }
    AtMostSplit(s, k, t);
    AtMostAll(high, t);
  }

  /** At most |s| / 2 elements lie below the median, so stepping down does not get cheaper. */
  lemma MedianNotBelow(s: seq<int>)
    requires Sorted(s) && |s| >= 1
    ensures Deviation(s, s[|s| / 2] - 1) >= Deviation(s, s[|s| / 2])
  {
    var t := s[|s| / 2] - 1;
    FewBelowMedian(s);
    DeviationSlope(s, t);
    assert t + 1 == s[|s| / 2];
  }

  /** The median level is the cheapest of all: "median must be minimum". */
  lemma MedianIsLeast(s: seq<int>, t: int)
    requires Sorted(s) && |s| >= 1
    ensures Deviation(s, s[|s| / 2]) <= Deviation(s, t)
  {
    MedianIsLocal(s);
    LocalIsGlobal(s, s[|s| / 2]);
  }

  /** Whether c is the cheapest cost of any level for s. */
  ghost predicate Cheapest(s: seq<int>, c: int)
  {
    (exists t :: c == Deviation(s, t)) && forall t :: c <= Deviation(s, t)
  }

  /**
   * Part 3: sort the heights, price the median and its two neighbours,
   * and walk down (or up) from a cheaper neighbour while that keeps
   * getting cheaper. The walk stops at a level no worse than its
   * neighbours, which is the cheapest; since the median already is the
   * cheapest, the walk never starts and the answer is the median's cost.
   */
  method Part3(input: string) returns (least: int)
    requires Parsable(input) && |Lines(input)| >= 1
    ensures Cheapest(Heights(input), least)
    ensures least == Deviation(Sort(Heights(input)), Sort(Heights(input))[|Heights(input)| / 2])
  {
    var nums := Sort(Heights(input));
    SortSorts(Heights(input));
    var median := nums[|nums| / 2];
    var atMedian := Deviation(nums, median);
    var below := Deviation(nums, median - 1);
    var above := Deviation(nums, median + 1);
    if below < atMedian {
      least := below;
      var current := median - 2;
      while true
        invariant least == Deviation(nums, current + 1) < Deviation(nums, current + 2)
        decreases least
      {
        var result := Deviation(nums, current);
        if result < least {
          least := result;
          current := current - 1;
        } else {
          LocalIsGlobal(nums, current + 1);
          break;
        }
      }
    } else if above < atMedian {
      least := above;
      var current := median + 2;
      while true
        invariant least == Deviation(nums, current - 1) < Deviation(nums, current - 2)
        decreases least
      {
        var result := Deviation(nums, current);
        if result < least {
          least := result;
          current := current + 1;
        } else {
          LocalIsGlobal(nums, current - 1);
          break;
        }
      }
    } else {
      least := atMedian;
      LocalIsGlobal(nums, median);
    }
    ghost var t :| least == Deviation(nums, t) && forall u :: least <= Deviation(nums, u);
    MedianIsLeast(nums, t);
    CheapestUnsorted(Heights(input), least);
  }

  /** The cheapest cost does not depend on the order of the heights. */
  lemma CheapestUnsorted(s: seq<int>, c: int)
    requires Cheapest(Sort(s), c)
    ensures Cheapest(s, c)
  {
    var t :| c == Deviation(Sort(s), t);
    SortDeviation(s, t);
    forall u
      ensures c <= Deviation(s, u)
    {
      SortDeviation(s, u);
    }
  }

  /** The example: for 2, 4, 5, 6 and 8 the cheapest level is 5, at 8 strikes. */
  lemma Part3Example(t: int)
    ensures Deviation([2, 4, 5, 6, 8], 5) == 8 <= Deviation([2, 4, 5, 6, 8], t)
  {
    MedianIsLeast([2, 4, 5, 6, 8], t);
  }
}
