/**
 * The pyramid of day 8 (src/day8.rs): a stack of rows of blocks that grows
 * by one of three rules, keeping the running total of blocks, the thickness
 * of the last layer and, for the third rule, the height of every column of
 * the right half. The three parts grow it until it holds enough blocks.
 */
module Day8 {
  import opened Wrappers
  import opened Text
  import opened Numbers

  /** n copies of x. */
  function Repeat(x: nat, n: nat): (r: seq<nat>)
    ensures |r| == n && forall i :: 0 <= i < n ==> r[i] == x
  {
    seq(n, _ => x)
  }

  /** n copies of x sum to n * x. */
  lemma {:induction false} SumRepeat(x: nat, n: nat)
    ensures Sum(Repeat(x, n)) == n * x
  {
    if n > 0 {
      SumRepeat(x, n - 1);
      assert Repeat(x, n)[..n - 1] == Repeat(x, n - 1);
    }
  }

  /** A layer of t rows of width w after rows: the blocks add up, and the bottom row is w unless the layer is empty. */
  lemma AddLayer(rows: seq<nat>, w: nat, t: nat)
    requires |rows| > 0
    ensures Sum(rows + Repeat(w, t)) == Sum(rows) + t * w
    ensures (rows + Repeat(w, t))[|rows| + t - 1] == if t == 0 then rows[|rows| - 1] else w
  {
    var layer := Repeat(w, t);
    SumAppend(rows, layer);
    SumRepeat(w, t);
    if t == 0 {
      assert rows + layer == rows;
    } else {
      assert (rows + layer)[|rows| + t - 1] == layer[t - 1];
    }
  }

  /** Every number of s raised by t. */
  function Raise(s: seq<nat>, t: nat): (r: seq<nat>)
    ensures |r| == |s| && forall i :: 0 <= i < |s| ==> r[i] == s[i] + t
  {
    seq(|s|, i requires 0 <= i < |s| => s[i] + t)
  }

  /** The distance between i and c. */
  function Dist(i: int, c: int): nat
  {
    if i < c then c - i else i - c
  }

  /**
   * The whole row of column heights of a pyramid of the given width, from
   * the right half h: column i has the height of the half's column at its
   * distance from the centre.
   */
  function Profile(h: seq<nat>, width: nat): (r: seq<nat>)
    requires width / 2 < |h|
    ensures |r| == width
  {
    seq(width, i requires 0 <= i < width => h[Dist(i, width / 2)])
  }

  /** For an odd width the profile reads the same from both ends, with the half's first height in the middle. */
  lemma ProfileMirror(h: seq<nat>, width: nat)
    requires width % 2 == 1 && width / 2 < |h|
    ensures forall i :: 0 <= i < width ==> Profile(h, width)[i] == Profile(h, width)[width - 1 - i]
    ensures Profile(h, width)[width / 2] == h[0]
  {
  }

  /** The fold of empty_blocks: each column contributes (firstLine * height) mod 10. */
  function Leftover(columns: seq<nat>, firstLine: nat): (r: nat)
    ensures r <= 9 * |columns|
  {
    if columns == [] then 0
    else Leftover(columns[..|columns| - 1], firstLine) + (firstLine * columns[|columns| - 1]) % 10
  }

  /**
   * empty_blocks for a row of column heights: none for a single column,
   * else the leftovers of the columns between the two outermost ones, with
   * the width times the number of priests as the first line.
   */
  function EmptyOf(columns: seq<nat>, priests: nat): (r: nat)
    requires |columns| >= 1
    ensures |columns| == 1 ==> r == 0
    ensures |columns| >= 2 ==> r <= 9 * (|columns| - 2)
  {
    if |columns| == 1 then 0
    else Leftover(columns[1..|columns| - 1], |columns| * priests)
  }

  /** The right half of the column heights decreases from the centre outward and stays positive. */
  predicate Decreasing(h: seq<nat>)
  {
    && (forall i :: 0 <= i < |h| - 1 ==> h[i] > h[i + 1])
    && (|h| > 0 ==> h[|h| - 1] >= 1)
  }

  /** A new outer column of height 0 and a rise of every column by t >= 1 keep the heights decreasing outward. */
  lemma RaiseDecreasing(h: seq<nat>, t: nat)
    requires Decreasing(h) && t >= 1
    ensures Decreasing(Raise(h + [0], t))
  {
    var r := Raise(h + [0], t);
    forall i | 0 <= i < |r| - 1
      ensures r[i] > r[i + 1]
    {
      if i + 1 < |h| {
        assert r[i] == h[i] + t && r[i + 1] == h[i + 1] + t;
      } else {
        assert r[i] == h[i] + t && r[i + 1] == t;
      }
    }
  }

  /** The loop of add_row_p3 that raises every column height by the thickness. */
  method RaiseAll(heights: seq<nat>, thickness: nat) returns (columns: seq<nat>)
    ensures columns == Raise(heights, thickness)
  {
    columns := heights;
    for i := 0 to |columns|
      invariant |columns| == |heights|
      invariant forall k :: 0 <= k < i ==> columns[k] == heights[k] + thickness
      invariant forall k :: i <= k < |columns| ==> columns[k] == heights[k]
    {
      columns := columns[i := columns[i] + thickness];
    }
  }

  /** Rows, sum and half heights of a pyramid grown by add_row_p3 layers from the single block. */
  ghost predicate SteppedState(rows: seq<nat>, sum: nat, heights: seq<nat>)
  {
    && |rows| > 0 && rows[|rows| - 1] == 2 * |heights| - 1 && Decreasing(heights)
    && (rows[|rows| - 1] == 1 || sum >= 10 * rows[|rows| - 1])
  }

  /** A pyramid's state: a last row of odd width, the total of all rows, and a half of the column heights. */
  ghost predicate ValidState(rows: seq<nat>, sum: nat, heights: seq<nat>)
  {
    |rows| > 0 && sum == Sum(rows) && rows[|rows| - 1] % 2 == 1 && |heights| > 0
  }

  /** A layer of t rows two wider than the last row keeps the state valid. */
  lemma LayerValid(rows: seq<nat>, sum: nat, heights: seq<nat>, t: nat, heights': seq<nat>)
    requires ValidState(rows, sum, heights) && |heights'| > 0
    ensures var w := rows[|rows| - 1] + 2;
      && ValidState(rows + Repeat(w, t), sum + t * w, heights')
      && (rows + Repeat(w, t))[|rows| + t - 1] == if t == 0 then rows[|rows| - 1] else w
  {
    AddLayer(rows, rows[|rows| - 1] + 2, t);
  }

  /** One add_row_p3 layer of thickness 10 or more keeps the shape. */
  lemma SteppedGrows(rows: seq<nat>, sum: nat, heights: seq<nat>, t: nat, rows': seq<nat>, sum': nat, heights': seq<nat>)
    requires |rows| > 0 && t >= 10
    requires var w := rows[|rows| - 1] + 2;
      rows' == rows + Repeat(w, t) && sum' == sum + t * w && heights' == Raise(heights + [0], t)
    ensures SteppedState(rows, sum, heights) ==> SteppedState(rows', sum', heights')
  {
    if !SteppedState(rows, sum, heights) {
      return;
    }
    var w := rows[|rows| - 1] + 2;
    AddLayer(rows, w, t);
    AtLeastTen(t, w);
    RaiseDecreasing(heights, t);
  }

  lemma AtLeastTen(t: nat, w: nat)
    requires t >= 10
    ensures t * w >= 10 * w
  {
  }

  /** The thickness of the next layer under the second rule: last thickness times priests, modulo 1111. */
  function P2Thickness(t: nat, priests: nat): nat
  {
    (t * priests) % 1111
  }

  /** The thickness of the next layer under the third rule, which always lies in 10..19. */
  function P3Thickness(t: nat, priests: nat): (r: nat)
    ensures 10 <= r <= 19
  {
    (t * priests) % 10 + 10
  }

  class Pyramid {
    var rows: seq<nat>
    var sum: nat
    var lastThickness: nat
    /** The heights of the columns from the centre to the right edge. */
    var heights: seq<nat>

    /** There is a row, the total counts the blocks of the rows, and rows are odd-wide. */
    ghost predicate Valid()
      reads this
    {
      ValidState(rows, sum, heights)
    }

    /** The width of the bottom row. */
    function Last(): nat
      reads this
      requires |rows| > 0
    {
      rows[|rows| - 1]
    }

    /** Grown by add_row alone: row i is 2i + 1 wide. */
    ghost predicate Thin()
      reads this
    {
      forall i :: 0 <= i < |rows| ==> rows[i] == 2 * i + 1
    }

    /**
     * Grown by add_row_p3 alone: the half of the column heights reaches
     * from the centre to the edge of the bottom row, decreasing outward,
     * and the bottom layer alone holds ten blocks per unit of width.
     */
    ghost predicate Stepped()
      reads this
    {
      SteppedState(rows, sum, heights)
    }

    /** Pyramid::new: one block. */
    constructor ()
      ensures rows == [1] && sum == 1 && lastThickness == 1 && heights == [1]
      ensures Valid() && Thin() && Stepped()
    {
      rows := [1];
      sum := 1;
      lastThickness := 1;
      heights := [1];
    }

    /** add_row: a row two wider than the last. */
    method AddRow()
      requires Valid()
      modifies this
      ensures Valid()
      ensures rows == old(rows) + [old(Last()) + 2] && sum == old(sum) + old(Last()) + 2
      ensures lastThickness == old(lastThickness) && heights == old(heights)
      ensures old(Thin()) ==> Thin()
    {
      var next := rows[|rows| - 1] + 2;
      SumAppend(rows, [next]);
      sum := sum + next;
      rows := rows + [next];
    }

    /**
     * add_row_p2: a layer two wider than the last row, as thick as the last
     * thickness times the priests, modulo 1111; a thickness of 0 adds nothing.
     */
    method AddRowP2(priests: nat)
      requires Valid()
      modifies this
      ensures Valid()
      ensures lastThickness == P2Thickness(old(lastThickness), priests)
      ensures rows == old(rows) + Repeat(old(Last()) + 2, lastThickness)
      ensures sum == old(sum) + lastThickness * (old(Last()) + 2)
      ensures heights == old(heights)
      ensures lastThickness == 0 ==> rows == old(rows)
      ensures Last() == if lastThickness == 0 then old(Last()) else old(Last()) + 2
    {
      var thickness := P2Thickness(lastThickness, priests);
      var width := rows[|rows| - 1] + 2;
      LayerValid(rows, sum, heights, thickness, heights);
      sum := sum + thickness * width;
      lastThickness := thickness;
      rows := rows + Repeat(width, thickness);
    }

    /**
     * add_row_p3: a layer two wider than the last row, 10 to 19 thick; every
     * column rises by the thickness and a new outer column appears.
     */
    method AddRowP3(priests: nat)
      requires Valid()
      modifies this
      ensures Valid()
      ensures lastThickness == P3Thickness(old(lastThickness), priests)
      ensures 10 <= lastThickness <= 19
      ensures rows == old(rows) + Repeat(old(Last()) + 2, lastThickness)
      ensures sum == old(sum) + lastThickness * (old(Last()) + 2)
      ensures heights == Raise(old(heights) + [0], lastThickness)
      ensures old(Stepped()) ==> Stepped()
    {
      var thickness := P3Thickness(lastThickness, priests);
      var width := rows[|rows| - 1] + 2;
      var columns := RaiseAll(heights + [0], thickness);
      LayerValid(rows, sum, heights, thickness, columns);
      ghost var rows0, sum0, heights0 := rows, sum, heights;
      sum := sum + thickness * width;
      lastThickness := thickness;
      heights := columns;
      rows := rows + Repeat(width, thickness);
      SteppedGrows(rows0, sum0, heights0, thickness, rows, sum, heights);
    }

    /**
     * column_heights: the height of every column of the bottom row, read
     * from the half at each column's distance from the centre. The source
     * indexes out of bounds when the half is shorter than that.
     */
    method ColumnHeights() returns (out: seq<nat>)
      requires Valid() && Last() / 2 < |heights|
      ensures out == Profile(heights, Last())
      ensures forall i :: 0 <= i < |out| ==> out[i] == out[|out| - 1 - i]
    {
      var width := rows[|rows| - 1];
      var half := width / 2;
      out := [];
      for i := 0 to width
        invariant |out| == i
        invariant forall k :: 0 <= k < i ==> out[k] == heights[Dist(k, half)]
      {
        var idx := if i < half then half - i else i - half;
        out := out + [heights[idx]];
      }
      ProfileMirror(heights, width);
    }

    /** empty_blocks: the blocks the priests take out of the interior columns. */
    method EmptyBlocks(priests: nat) returns (e: nat)
      requires Valid() && Last() / 2 < |heights|
      ensures e == EmptyOf(Profile(heights, Last()), priests)
    {
      var columns := ColumnHeights();
      e := EmptyOf(columns, priests);
    }
  }

  /** n thin rows, 1, 3, 5, ..., hold n * n blocks. */
  lemma {:induction false} ThinSum(rows: seq<nat>)
    requires forall i :: 0 <= i < |rows| ==> rows[i] == 2 * i + 1
    ensures Sum(rows) == |rows| * |rows|
  {
    if rows != [] {
      var n := |rows|;
      ThinSum(rows[..n - 1]);
      assert n * n == (n - 1) * (n - 1) + 2 * n - 1;
    }
  }

  /** The number of thin rows the first part's loop stops at: the first n from the given one with n * n >= target. */
  function ThinRows(target: nat, n: nat): (r: nat)
    requires n >= 1
    ensures r >= n && r * r >= target
    ensures forall k :: n <= k < r ==> k * k < target
    decreases if n * n < target then target - n * n else 0
  {
    if n * n >= target then n
    else
      assert (n + 1) * (n + 1) > n * n;
      ThinRows(target, n + 1)
  }

  /** The first part's answer: the extra blocks of the first thin pyramid that holds target, times its width. */
  function ThinAnswer(target: nat): nat
  {
    var n := ThinRows(target, 1);
    Product(n * n - target, 2 * n - 1)
  }

  /** The example: thirteen blocks need four rows (sixteen blocks), three too many, times width seven. */
  lemma ThinExample()
    ensures ThinAnswer(13) == 21
  {
    assert ThinRows(13, 4) == 4;
    assert ThinRows(13, 1) == ThinRows(13, 2) == ThinRows(13, 3) == 4;
  }

  /** Part 1: add thin rows until the pyramid holds the target, then the surplus times the width. */
  method Part1(input: string) returns (answer: nat)
    requires ParseNat(input).Some?
    ensures answer == ThinAnswer(ParseNat(input).value)
  {
    var target := ParseNat(input).value;
    var pyramid := new Pyramid();
    ghost var n: nat := 1;
    while pyramid.sum < target
      invariant pyramid.Valid() && pyramid.Thin() && |pyramid.rows| == n >= 1
      invariant pyramid.sum == n * n
      invariant ThinRows(target, n) == ThinRows(target, 1)
      decreases target - pyramid.sum
    {
      pyramid.AddRow();
      n := n + 1;
      ThinSum(pyramid.rows);
    }
    assert ThinRows(target, n) == n;
    assert pyramid.rows[n - 1] == 2 * n - 1;
    answer := Product(pyramid.sum - target, pyramid.rows[|pyramid.rows| - 1]);
  }

  /** Multiples of eleven leave no remainder. */
  lemma ModEleven(k: int, x: int)
    ensures (11 * k + x) % 11 == x % 11
  {
  }

  lemma Distribute(q: int, r: int, b: int)
    ensures (11 * q + r) * b == 11 * (q * b) + r * b
  {
  }

  /** The remainder of a product by eleven is that of the product of the remainders. */
  lemma MulModEleven(a: nat, b: nat)
    ensures (a * b) % 11 == ((a % 11) * (b % 11)) % 11
  {
    var qa, ra := a / 11, a % 11;
    var qb, rb := b / 11, b % 11;
    Distribute(qa, ra, b);
    ModEleven(qa * b, ra * b);
    assert b * ra == (11 * qb + rb) * ra;
    Distribute(qb, rb, ra);
    ModEleven(qb * ra, rb * ra);
  }

  /** Eleven is prime: two numbers between 1 and 10 never multiply to a multiple of it. */
  lemma ElevenIsPrime(x: nat, y: nat)
    requires 1 <= x <= 10 && 1 <= y <= 10
    ensures (x * y) % 11 != 0
  {
    if x == 1 {} else if x == 2 {} else if x == 3 {} else if x == 4 {} else if x == 5 {}
    else if x == 6 {} else if x == 7 {} else if x == 8 {} else if x == 9 {} else {}
  }

  /**
   * While the priests are no multiple of eleven, the thickness of the second
   * rule never becomes a multiple of eleven, so never zero (1111 = 11 * 101).
   */
  lemma ThicknessNeverZero(t: nat, priests: nat)
    requires t % 11 != 0 && priests % 11 != 0
    ensures P2Thickness(t, priests) % 11 != 0
  {
    var x := t * priests;
    ModEleven(101 * (x / 1111), x % 1111);
    MulModEleven(t, priests);
    ElevenIsPrime(t % 11, priests % 11);
  }

  /**
   * The second part's growth: from a pyramid holding sum blocks whose last
   * thickness is t and bottom width is width, the total and the width once
   * it holds at least the given number of blocks.
   */
  function GrowP2(sum: nat, t: nat, width: nat, priests: nat, blocks: nat): (r: (nat, nat))
    requires t % 11 != 0 && priests % 11 != 0
    ensures r.0 >= blocks && r.0 >= sum && r.1 >= width
    ensures sum >= blocks ==> r == (sum, width)
    decreases if sum < blocks then blocks - sum else 0
  {
    if sum >= blocks then (sum, width)
    else
      var t' := P2Thickness(t, priests);
      ThicknessNeverZero(t, priests);
      GrowP2(sum + t' * (width + 2), t', width + 2, priests, blocks)
  }

  /** Growth by the second rule from a pyramid of sum blocks, last thickness t and bottom width width reaches goal. */
  ghost predicate OnTheWayP2(sum: nat, t: nat, width: nat, priests: nat, goal: (nat, nat))
  {
    t % 11 != 0 && priests % 11 != 0 && GrowP2(sum, t, width, priests, P2Blocks) == goal
  }

  /** Short of the target, the next layer of the second rule is still on the way and adds blocks. */
  lemma OnTheWayP2Next(sum: nat, t: nat, width: nat, priests: nat, goal: (nat, nat), sum': nat, t': nat, width': nat)
    requires OnTheWayP2(sum, t, width, priests, goal) && sum < P2Blocks
    requires t' == P2Thickness(t, priests) && width' == width + 2 && sum' == sum + t' * width'
    ensures OnTheWayP2(sum', t', width', priests, goal) && sum' > sum
  {
    ThicknessNeverZero(t, priests);
    PositiveProduct(t', width');
  }

  const P2Blocks: nat := 20240000

  /** The second part's answer: the surplus over 20240000 blocks times the width. */
  function P2Answer(priests: nat): nat
    requires priests % 11 != 0
  {
    var (sum, width) := GrowP2(1, 1, 1, priests, P2Blocks);
    Product(sum - P2Blocks, width)
  }

  /** One pass of the second part's loop: a layer of the second rule, which adds blocks. */
  method LayerP2(pyramid: Pyramid, priests: nat, ghost goal: (nat, nat))
    requires pyramid.Valid() && OnTheWayP2(pyramid.sum, pyramid.lastThickness, pyramid.Last(), priests, goal)
    requires pyramid.sum < P2Blocks
    modifies pyramid
    ensures pyramid.Valid() && OnTheWayP2(pyramid.sum, pyramid.lastThickness, pyramid.Last(), priests, goal)
    ensures pyramid.sum > old(pyramid.sum)
  {
    ghost var sum, t, width := pyramid.sum, pyramid.lastThickness, pyramid.Last();
    ThicknessNeverZero(t, priests);
    pyramid.AddRowP2(priests);
    OnTheWayP2Next(sum, t, width, priests, goal, pyramid.sum, pyramid.lastThickness, pyramid.Last());
  }

  /**
   * Part 2: layers of the second rule until 20240000 blocks, then the
   * surplus times the width. The source loops forever when the thickness
   * reaches zero; the model asks for a number of priests that is no
   * multiple of eleven, which rules that out.
   */
  method Part2(input: string) returns (answer: nat)
    requires ParseNat(input).Some? && ParseNat(input).value % 11 != 0
    ensures answer == P2Answer(ParseNat(input).value)
  {
    var priests := ParseNat(input).value;
    var pyramid := new Pyramid();
    ghost var goal := GrowP2(1, 1, 1, priests, P2Blocks);
    while pyramid.sum < P2Blocks
      invariant pyramid.Valid() && OnTheWayP2(pyramid.sum, pyramid.lastThickness, pyramid.Last(), priests, goal)
      decreases P2Blocks - pyramid.sum
    {
      LayerP2(pyramid, priests, goal);
    }
    assert goal == (pyramid.sum, pyramid.Last());
    answer := Product(pyramid.sum - P2Blocks, pyramid.rows[|pyramid.rows| - 1]);
  }

  /** The width of a pyramid grown by the third rule, from its half of the column heights. */
  function WidthOf(h: seq<nat>): nat
    requires |h| > 0
  {
    2 * |h| - 1
  }

  /** empty_blocks of a pyramid grown by the third rule. */
  function EmptyFor(h: seq<nat>, priests: nat): nat
    requires |h| > 0
  {
    EmptyOf(Profile(h, WidthOf(h)), priests)
  }

  /** The shape the third rule keeps: heights decreasing outward, and ten blocks per unit of width in the bottom layer. */
  predicate P3Ok(sum: nat, h: seq<nat>)
  {
    |h| > 0 && Decreasing(h) && (|h| == 1 || sum >= 10 * WidthOf(h))
  }

  /** There are never more empty blocks than blocks, so the source's subtraction does not underflow. */
  lemma EmptyWithinSum(sum: nat, h: seq<nat>, priests: nat)
    requires P3Ok(sum, h)
    ensures EmptyFor(h, priests) <= sum
  {
  }

  /** One layer of the third rule, on the shape alone. */
  lemma P3Step(sum: nat, t: nat, h: seq<nat>, priests: nat, sum': nat, t': nat, h': seq<nat>)
    requires P3Ok(sum, h)
    requires t' == P3Thickness(t, priests) && h' == Raise(h + [0], t') && sum' == sum + t' * (WidthOf(h) + 2)
    ensures P3Ok(sum', h') && WidthOf(h') == WidthOf(h) + 2
    ensures sum' - EmptyFor(h', priests) > sum - EmptyFor(h, priests)
  {
    var w := WidthOf(h) + 2;
    AtLeastTen(t', w);
    RaiseDecreasing(h, t');
    assert WidthOf(h') == w;
    assert EmptyFor(h', priests) <= 9 * (w - 2);
  }

  /**
   * The third part's growth: from a pyramid of the third rule holding sum
   * blocks, with last thickness t and half heights h, the total and the
   * half heights once the blocks less the empty ones reach the target.
   */
  function GrowP3(sum: nat, t: nat, h: seq<nat>, priests: nat, blocks: nat): (r: (nat, seq<nat>))
    requires P3Ok(sum, h)
    ensures P3Ok(r.0, r.1) && EmptyFor(r.1, priests) <= r.0
    ensures r.0 - EmptyFor(r.1, priests) >= blocks
    ensures sum - EmptyFor(h, priests) >= blocks ==> r == (sum, h)
    decreases if sum - EmptyFor(h, priests) < blocks then blocks - (sum - EmptyFor(h, priests)) else 0
  {
    EmptyWithinSum(sum, h, priests);
    if sum - EmptyFor(h, priests) >= blocks then (sum, h)
    else
      var next := P3Next(sum, t, h, priests);
      P3Step(sum, t, h, priests, next.0, next.1, next.2);
      GrowP3(next.0, next.1, next.2, priests, blocks)
  }

  /** One layer of the third rule: the new total, thickness and half heights. */
  function P3Next(sum: nat, t: nat, h: seq<nat>, priests: nat): (nat, nat, seq<nat>)
    requires |h| > 0
  {
    var t' := P3Thickness(t, priests);
    (sum + t' * (WidthOf(h) + 2), t', Raise(h + [0], t'))
  }

  /** One layer short of the target, the growth goes on from the next layer. */
  lemma GrowP3Unfold(sum: nat, t: nat, h: seq<nat>, priests: nat, blocks: nat, sum': nat, t': nat, h': seq<nat>)
    requires P3Ok(sum, h) && EmptyFor(h, priests) <= sum && sum - EmptyFor(h, priests) < blocks
    requires (sum', t', h') == P3Next(sum, t, h, priests)
    ensures P3Ok(sum', h') && EmptyFor(h', priests) <= sum'
    ensures sum' - EmptyFor(h', priests) > sum - EmptyFor(h, priests)
    ensures GrowP3(sum, t, h, priests, blocks) == GrowP3(sum', t', h', priests, blocks)
  {
    P3Step(sum, t, h, priests, sum', t', h');
    EmptyWithinSum(sum', h', priests);
  }

  const P3Blocks: nat := 202400000

  /** The third part's answer: the blocks less the empty ones, over 202400000. */
  function P3Answer(priests: nat): nat
  {
    var (sum, h) := GrowP3(1, 1, [1], priests, P3Blocks);
    sum - P3Blocks - EmptyFor(h, priests)
  }

  /** The third part's loop invariant: a pyramid of the third rule on its way to goal, with its empty blocks counted. */
  ghost predicate Growing(pyramid: Pyramid, empty: nat, priests: nat, goal: (nat, seq<nat>))
    reads pyramid
  {
    && pyramid.Valid() && pyramid.Stepped()
    && OnTheWay(pyramid.sum, pyramid.lastThickness, pyramid.heights, empty, priests, goal)
  }

  /** Growth by the third rule from (sum, t, h) reaches goal, and empty counts the empty blocks of h. */
  ghost predicate OnTheWay(sum: nat, t: nat, h: seq<nat>, empty: nat, priests: nat, goal: (nat, seq<nat>))
  {
    && P3Ok(sum, h) && empty == EmptyFor(h, priests) <= sum
    && GrowP3(sum, t, h, priests, P3Blocks) == goal
  }

  /** Short of the target, the next layer is still on the way, with fewer blocks to go. */
  lemma OnTheWayNext(sum: nat, t: nat, h: seq<nat>, empty: nat, priests: nat, goal: (nat, seq<nat>))
    requires OnTheWay(sum, t, h, empty, priests, goal) && sum - empty < P3Blocks
    ensures var next := P3Next(sum, t, h, priests);
            OnTheWay(next.0, next.1, next.2, EmptyFor(next.2, priests), priests, goal)
            && next.0 - EmptyFor(next.2, priests) > sum - empty
  {
    var next := P3Next(sum, t, h, priests);
    GrowP3Unfold(sum, t, h, priests, P3Blocks, next.0, next.1, next.2);
  }

  /** One pass of the third part's loop: a layer, then the empty blocks counted again. */
  method Layer(pyramid: Pyramid, priests: nat, ghost before: nat, ghost goal: (nat, seq<nat>)) returns (empty: nat)
    requires Growing(pyramid, before, priests, goal) && pyramid.sum - before < P3Blocks
    modifies pyramid
    ensures Growing(pyramid, empty, priests, goal)
    ensures pyramid.sum - empty > old(pyramid.sum) - before
  {
    ghost var sum, t, h := pyramid.sum, pyramid.lastThickness, pyramid.heights;
    ghost var width := pyramid.Last();
    assert width == WidthOf(h);
    ghost var next := P3Next(sum, t, h, priests);
    OnTheWayNext(sum, t, h, before, priests, goal);
    pyramid.AddRowP3(priests);
    assert pyramid.Valid() && pyramid.Stepped();
    assert pyramid.sum == next.0 && pyramid.lastThickness == next.1 && pyramid.heights == next.2;
    empty := pyramid.EmptyBlocks(priests);
    assert empty == EmptyFor(next.2, priests);
  }

  /** Part 3: layers of the third rule until the blocks less the empty ones reach 202400000; then the surplus. */
  method Part3(input: string) returns (answer: nat)
    requires ParseNat(input).Some?
    ensures answer == P3Answer(ParseNat(input).value)
  {
    var priests := ParseNat(input).value;
    var pyramid := new Pyramid();
    var empty := pyramid.EmptyBlocks(priests);
    ghost var goal := GrowP3(1, 1, [1], priests, P3Blocks);
    while pyramid.sum - empty < P3Blocks
      invariant Growing(pyramid, empty, priests, goal)
      decreases P3Blocks - (pyramid.sum - empty)
    {
      empty := Layer(pyramid, priests, empty, goal);
    }
    answer := pyramid.sum - P3Blocks - empty;
  }
}
