/**
 * The mine of day 3 (src/day3.rs): a grid of depths stored row by row in one
 * vector, '#' cells starting at depth 1 and the rest at 0. Each round digs
 * one level deeper, raising every cell at the previous depth whose
 * neighbours are all at least that deep; rounds go on until one raises
 * nothing, and the answer is the sum of the depths.
 */
module Day3 {
  import opened Text
  import opened Numbers

  /** Where (x, y) lies in the row-by-row vector, and that it lies inside a w-by-h grid. */
  lemma CellInGrid(w: nat, h: nat, x: nat, y: nat)
    requires x < w && y < h
    ensures y * w + x < w * h
  {
    assert y * w + x < y * w + w == (y + 1) * w;
    assert (y + 1) * w <= h * w by {
      MoreRows(w, y + 1, h);
    }
  }

  lemma MoreRows(w: nat, a: nat, b: nat)
    requires a <= b
    ensures a * w <= b * w
  {
    assert b * w == a * w + (b - a) * w;
  }

  /** The cell (x, y) is the one stored at index y * w + x, and no other. */
  lemma CellCoords(w: nat, x: nat, y: nat)
    requires x < w
    ensures (y * w + x) % w == x && (y * w + x) / w == y
  {
    ModUnique(y * w + x, w, y, x);
    DivUnique(y * w + x, w, y, x);
  }

  /** Every index of a w-by-h grid names a cell inside it. */
  lemma IndexCell(w: nat, h: nat, i: nat)
    requires i < w * h
    ensures w >= 1 && i % w < w && i / w < h && i == i / w * w + i % w
  {
    if i / w >= h {
      MoreRows(w, h, i / w);
    }
  }

  /** The index y * w + x of cell (x, y), inside the w-by-h vector. */
  function Index(w: nat, h: nat, x: nat, y: nat): (i: nat)
    requires x < w && y < h
    ensures i < w * h
  {
    CellInGrid(w, h, x, y);
    y * w + x
  }

  /** Two different cells are stored at different indices. */
  lemma IndexApart(w: nat, h: nat, x: nat, y: nat, cx: nat, cy: nat)
    requires x < w && y < h && cx < w && cy < h && (x != cx || y != cy)
    ensures Index(w, h, x, y) != Index(w, h, cx, cy)
  {
    CellCoords(w, x, y);
    CellCoords(w, cx, cy);
  }

  /** The depth of cell (x, y). */
  function At(g: seq<nat>, w: nat, h: nat, x: nat, y: nat): nat
    requires |g| == w * h && x < w && y < h
  {
    g[Index(w, h, x, y)]
  }

  /** Two vectors of a w-by-h grid that agree on every cell are the same vector. */
  lemma SameCells(a: seq<nat>, b: seq<nat>, w: nat, h: nat)
    requires |a| == w * h && |b| == w * h
    requires forall x, y :: 0 <= x < w && 0 <= y < h ==> At(a, w, h, x, y) == At(b, w, h, x, y)
    ensures a == b
  {
    forall i | 0 <= i < |a|
      ensures a[i] == b[i]
    {
      IndexCell(w, h, i);
      assert At(a, w, h, i % w, i / w) == At(b, w, h, i % w, i / w);
    }
  }

  /** The rows laid out one after another: the vector a grid is stored in. */
  function Layout(rows: seq<seq<nat>>): seq<nat>
  {
    if rows == [] then [] else Layout(rows[..|rows| - 1]) + rows[|rows| - 1]
  }

  /** Whether every row is w wide. */
  predicate Width(rows: seq<seq<nat>>, w: nat)
  {
    forall y :: 0 <= y < |rows| ==> |rows[y]| == w
  }

  /** Rows of width w lay out into |rows| * w cells, cell (x, y) holding rows[y][x]. */
  lemma {:induction false} LayoutAt(rows: seq<seq<nat>>, w: nat)
    requires Width(rows, w)
    ensures |Layout(rows)| == w * |rows|
    ensures forall x, y :: 0 <= x < w && 0 <= y < |rows| ==> At(Layout(rows), w, |rows|, x, y) == rows[y][x]
    decreases |rows|
  {
    if rows != [] {
      var h := |rows| - 1;
      var front := rows[..h];
      LayoutAt(front, w);
      assert w * |rows| == w * h + w;
      forall x, y | 0 <= x < w && 0 <= y < |rows|
        ensures At(Layout(rows), w, |rows|, x, y) == rows[y][x]
      {
        if y < h {
          CellInGrid(w, h, x, y);
          assert At(Layout(front), w, h, x, y) == front[y][x];
        } else {
          assert y * w == w * h;
        }
      }
    }
  }

  /** Whether (x, y) lies on the edge of the grid, where the padding of '.' keeps everything at 0. */
  predicate OnEdge(w: nat, h: nat, x: nat, y: nat)
  {
    x == 0 || x == w - 1 || y == 0 || y == h - 1
  }

  /**
   * Whether every neighbour of (x, y) is at least depth - 1 deep: the four
   * orthogonal ones, and the four diagonal ones too when diagonals count.
   */
  predicate Supported(g: seq<nat>, depth: nat, w: nat, h: nat, diagonals: bool, x: nat, y: nat)
    requires |g| == w * h && x < w && y < h
    ensures depth <= 1 ==> Supported(g, depth, w, h, diagonals, x, y)
  {
    !(x > 0 && At(g, w, h, x - 1, y) < depth - 1) &&
    !(x < w - 1 && At(g, w, h, x + 1, y) < depth - 1) &&
    !(y > 0 && At(g, w, h, x, y - 1) < depth - 1) &&
    !(y < h - 1 && At(g, w, h, x, y + 1) < depth - 1) &&
    (diagonals ==>
      !(x > 0 && y > 0 && At(g, w, h, x - 1, y - 1) < depth - 1) &&
      !(x < w - 1 && y > 0 && At(g, w, h, x + 1, y - 1) < depth - 1) &&
      !(x > 0 && y < h - 1 && At(g, w, h, x - 1, y + 1) < depth - 1) &&
      !(x < w - 1 && y < h - 1 && At(g, w, h, x + 1, y + 1) < depth - 1))
  }

  /** Whether digging to depth raises cell (x, y): it is at depth - 1, off the edge and supported. */
  predicate Diggable(g: seq<nat>, depth: nat, w: nat, h: nat, diagonals: bool, x: nat, y: nat)
    requires |g| == w * h && x < w && y < h
  {
    At(g, w, h, x, y) == depth - 1 && !OnEdge(w, h, x, y) && Supported(g, depth, w, h, diagonals, x, y)
  }

  /** The depth of cell (x, y) after a round at depth. */
  function Dug(g: seq<nat>, depth: nat, w: nat, h: nat, diagonals: bool, x: nat, y: nat): (r: nat)
    requires |g| == w * h && x < w && y < h
    ensures At(g, w, h, x, y) <= r <= At(g, w, h, x, y) + 1
    ensures OnEdge(w, h, x, y) ==> r == At(g, w, h, x, y)
  {
    if Diggable(g, depth, w, h, diagonals, x, y) then depth else At(g, w, h, x, y)
  }

  /**
   * One round of digging: every cell tested against the grid as it was
   * before the round, and the diggable ones all raised at once.
   */
  function Carved(g: seq<nat>, depth: nat, w: nat, h: nat, diagonals: bool): (r: seq<nat>)
    requires |g| == w * h
    ensures |r| == w * h
    ensures forall x, y :: 0 <= x < w && 0 <= y < h ==> At(r, w, h, x, y) == Dug(g, depth, w, h, diagonals, x, y)
  {
    var rows := seq(h, y requires 0 <= y < h => seq(w, x requires 0 <= x < w => Dug(g, depth, w, h, diagonals, x, y)));
    LayoutAt(rows, w);
    Layout(rows)
  }

  /** A round changes the grid exactly when some cell is diggable. */
  lemma CarvedChanges(g: seq<nat>, depth: nat, w: nat, h: nat, diagonals: bool)
    requires |g| == w * h
    ensures Carved(g, depth, w, h, diagonals) != g <==>
            exists x, y :: 0 <= x < w && 0 <= y < h && Diggable(g, depth, w, h, diagonals, x, y)
  {
    var c := Carved(g, depth, w, h, diagonals);
    if exists x, y :: 0 <= x < w && 0 <= y < h && Diggable(g, depth, w, h, diagonals, x, y) {
      var x, y :| 0 <= x < w && 0 <= y < h && Diggable(g, depth, w, h, diagonals, x, y);
      assert At(c, w, h, x, y) != At(g, w, h, x, y);
    } else {
      SameCells(c, g, w, h);
    }
  }

  /** Whether the sweep has visited (cx, cy) by the time it stands at (x, y): an earlier row, or earlier in the row. */
  predicate Visited(cx: nat, cy: nat, x: nat, y: nat)
  {
    cy < y || (cy == y && cx < x)
  }

  /** The grid in the middle of a round: the visited cells dug, the others as before the round. */
  predicate SweptTo(cur: seq<nat>, g: seq<nat>, depth: nat, w: nat, h: nat, diagonals: bool, x: nat, y: nat)
    requires |g| == w * h
  {
    |cur| == w * h &&
    forall cx, cy :: 0 <= cx < w && 0 <= cy < h ==>
      At(cur, w, h, cx, cy) == if Visited(cx, cy, x, y) then Dug(g, depth, w, h, diagonals, cx, cy) else At(g, w, h, cx, cy)
  }

  /** Whether some visited cell was diggable. */
  predicate DugBefore(g: seq<nat>, depth: nat, w: nat, h: nat, diagonals: bool, x: nat, y: nat)
    requires |g| == w * h
  {
    exists cx, cy :: 0 <= cx < w && 0 <= cy < h && Visited(cx, cy, x, y) && Diggable(g, depth, w, h, diagonals, cx, cy)
  }

  /**
   * In the middle of a round, every cell is below depth - 1 exactly when it
   * was before the round: a raised cell went from depth - 1 to depth.
   */
  lemma SweptSupports(cur: seq<nat>, g: seq<nat>, depth: nat, w: nat, h: nat, diagonals: bool, x: nat, y: nat)
    requires |g| == w * h && depth >= 1 && SweptTo(cur, g, depth, w, h, diagonals, x, y) && x < w && y < h
    ensures Supported(cur, depth, w, h, diagonals, x, y) == Supported(g, depth, w, h, diagonals, x, y)
    ensures At(cur, w, h, x, y) == At(g, w, h, x, y)
  {
  }

  /**
   * The neighbour test of cell (x, y) as the source runs it: start from
   * "all deep enough" and clear it for each neighbour found too shallow.
   */
  method AllNeighbours(grid: array<nat>, depth: nat, w: nat, h: nat, diagonals: bool, x: nat, y: nat)
    returns (all: bool)
    requires grid.Length == w * h && x < w && y < h
    ensures all == Supported(grid[..], depth, w, h, diagonals, x, y)
  {
    all := true;
    if x > 0 && grid[Index(w, h, x - 1, y)] < depth - 1 {
      all := false;
    }
    if x < w - 1 && grid[Index(w, h, x + 1, y)] < depth - 1 {
      all := false;
    }
    if y > 0 && grid[Index(w, h, x, y - 1)] < depth - 1 {
      all := false;
    }
    if y < h - 1 && grid[Index(w, h, x, y + 1)] < depth - 1 {
      all := false;
    }
    if diagonals {
      if x > 0 && y > 0 && grid[Index(w, h, x - 1, y - 1)] < depth - 1 {
        all := false;
      }
      if x < w - 1 && y > 0 && grid[Index(w, h, x + 1, y - 1)] < depth - 1 {
        all := false;
      }
      if x > 0 && y < h - 1 && grid[Index(w, h, x - 1, y + 1)] < depth - 1 {
        all := false;
      }
      if x < w - 1 && y < h - 1 && grid[Index(w, h, x + 1, y + 1)] < depth - 1 {
        all := false;
      }
    }
  }

  /**
   * carve_deeper: one round at depth, visiting the cells row by row and
   * raising each diggable one in place. Because a raised cell still passes
   * the neighbour test, the in-place sweep ends where raising all the
   * diggable cells of the old grid at once does. Returns whether any cell
   * was raised.
   */
  method CarveDeeper(grid: array<nat>, depth: nat, w: nat, h: nat, diagonals: bool) returns (dug: bool)
    requires grid.Length == w * h && depth >= 1
    modifies grid
    ensures grid[..] == Carved(old(grid[..]), depth, w, h, diagonals)
    ensures dug <==> grid[..] != old(grid[..])
  {
    ghost var g := grid[..];
    dug := false;
    for y := 0 to h
      invariant SweptTo(grid[..], g, depth, w, h, diagonals, 0, y)
      invariant dug <==> DugBefore(g, depth, w, h, diagonals, 0, y)
    {
      for x := 0 to w
        invariant SweptTo(grid[..], g, depth, w, h, diagonals, x, y)
        invariant dug <==> DugBefore(g, depth, w, h, diagonals, x, y)
      {
        var raised := DigCell(grid, g, depth, w, h, diagonals, x, y);
        dug := dug || raised;
      }
      NextRow(grid[..], g, depth, w, h, diagonals, y);
    }
    SweptAll(grid[..], g, depth, w, h, diagonals);
  }

  /** Standing past the end of row y is standing at the start of row y + 1. */
  lemma NextRow(cur: seq<nat>, g: seq<nat>, depth: nat, w: nat, h: nat, diagonals: bool, y: nat)
    requires |g| == w * h
    ensures SweptTo(cur, g, depth, w, h, diagonals, w, y) == SweptTo(cur, g, depth, w, h, diagonals, 0, y + 1)
    ensures DugBefore(g, depth, w, h, diagonals, w, y) == DugBefore(g, depth, w, h, diagonals, 0, y + 1)
  {
    assert forall cx, cy :: 0 <= cx < w ==> (Visited(cx, cy, w, y) <==> Visited(cx, cy, 0, y + 1));
  }

  /** Once every row is visited, the grid is the round's result, and something was raised exactly when it changed. */
  lemma SweptAll(cur: seq<nat>, g: seq<nat>, depth: nat, w: nat, h: nat, diagonals: bool)
    requires |g| == w * h && SweptTo(cur, g, depth, w, h, diagonals, 0, h)
    ensures cur == Carved(g, depth, w, h, diagonals)
    ensures DugBefore(g, depth, w, h, diagonals, 0, h) <==> cur != g
  {
    SameCells(cur, Carved(g, depth, w, h, diagonals), w, h);
    CarvedChanges(g, depth, w, h, diagonals);
  }

  /**
   * One cell of the sweep: skip it unless it is at depth - 1 and off the
   * edge, then raise it when its neighbours allow.
   */
  method DigCell(grid: array<nat>, ghost g: seq<nat>, depth: nat, w: nat, h: nat, diagonals: bool, x: nat, y: nat)
    returns (raised: bool)
    requires |g| == w * h && depth >= 1 && x < w && y < h
    requires grid.Length == w * h && SweptTo(grid[..], g, depth, w, h, diagonals, x, y)
    modifies grid
    ensures SweptTo(grid[..], g, depth, w, h, diagonals, x + 1, y)
    ensures raised == Diggable(g, depth, w, h, diagonals, x, y)
  {
    var idx := Index(w, h, x, y);
    SweptSupports(grid[..], g, depth, w, h, diagonals, x, y);
    ghost var before := grid[..];
    raised := false;
    if grid[idx] != depth - 1 {
    } else if OnEdge(w, h, x, y) {
    } else {
      var all := AllNeighbours(grid, depth, w, h, diagonals, x, y);
      if all {
        grid[idx] := depth;
        raised := true;
      }
    }
    forall cx, cy | 0 <= cx < w && 0 <= cy < h && (cx != x || cy != y)
      ensures At(grid[..], w, h, cx, cy) == At(before, w, h, cx, cy)
    {
      IndexApart(w, h, x, y, cx, cy);
    }
  }

  /**
   * Depths never exceed a cell's distance from the left edge plus one: the
   * edge stays at 0 or 1, and a cell reaches depth only when its left
   * neighbour is already at depth - 1.
   */
  predicate Shallow(g: seq<nat>, w: nat, h: nat)
    requires |g| == w * h
  {
    forall x, y :: 0 <= x < w && 0 <= y < h ==> At(g, w, h, x, y) <= x + 1
  }

  /** A round keeps the grid shallow, and raises nothing once depth is past the width. */
  lemma CarvedShallow(g: seq<nat>, depth: nat, w: nat, h: nat, diagonals: bool)
    requires |g| == w * h && depth >= 1 && Shallow(g, w, h)
    ensures Shallow(Carved(g, depth, w, h, diagonals), w, h)
    ensures Carved(g, depth, w, h, diagonals) != g ==> depth <= w
  {
    CarvedChanges(g, depth, w, h, diagonals);
    forall x, y | 0 <= x < w && 0 <= y < h && Diggable(g, depth, w, h, diagonals, x, y)
      ensures depth <= x + 1 && depth <= w
    {
      assert At(g, w, h, x - 1, y) <= x;
    }
  }

  /** A round changes only cells at depth - 1, and sets each of them to depth. */
  lemma CarvedRaises(g: seq<nat>, depth: nat, w: nat, h: nat, diagonals: bool, x: nat, y: nat)
    requires |g| == w * h && x < w && y < h
    ensures At(Carved(g, depth, w, h, diagonals), w, h, x, y) != At(g, w, h, x, y) ==>
            At(g, w, h, x, y) == depth - 1 && At(Carved(g, depth, w, h, diagonals), w, h, x, y) == depth
  {
  }

  /** A round never changes a cell on the edge of the grid. */
  lemma CarvedKeepsEdge(g: seq<nat>, depth: nat, w: nat, h: nat, diagonals: bool, x: nat, y: nat)
    requires |g| == w * h && x < w && y < h && OnEdge(w, h, x, y)
    ensures At(Carved(g, depth, w, h, diagonals), w, h, x, y) == At(g, w, h, x, y)
  {
  }

  /** A round raises a cell only if each of its four orthogonal neighbours is at least depth - 1. */
  lemma CarvedNeedsNeighbours(g: seq<nat>, depth: nat, w: nat, h: nat, diagonals: bool, x: nat, y: nat)
    requires |g| == w * h && x < w && y < h
    requires At(Carved(g, depth, w, h, diagonals), w, h, x, y) != At(g, w, h, x, y)
    ensures 0 < x < w - 1 && 0 < y < h - 1
    ensures At(g, w, h, x - 1, y) >= depth - 1 && At(g, w, h, x + 1, y) >= depth - 1
    ensures At(g, w, h, x, y - 1) >= depth - 1 && At(g, w, h, x, y + 1) >= depth - 1
  {
  }

  /**
   * The mine once digging stops: rounds at depth, depth + 1, ... until one
   * raises nothing.
   */
  function Excavated(g: seq<nat>, depth: nat, w: nat, h: nat, diagonals: bool): (r: seq<nat>)
    requires |g| == w * h && depth >= 1 && depth <= w + 2 && Shallow(g, w, h)
    ensures |r| == |g| && Shallow(r, w, h)
    decreases w + 2 - depth
  {
    var c := Carved(g, depth, w, h, diagonals);
    CarvedShallow(g, depth, w, h, diagonals);
    if c == g then g else Excavated(c, depth + 1, w, h, diagonals)
  }

  /** Whether every line is at least as long as the first, so every cell the grid reads exists. */
  predicate WideEnough(lines: seq<string>)
  {
    |lines| >= 1 && forall y :: 0 <= y < |lines| ==> |lines[y]| >= |lines[0]|
  }

  /** The depth a character starts at: 1 under '#', 0 elsewhere. */
  function Depth0(c: char): nat
  {
    if c == '#' then 1 else 0
  }

  /** The starting mine: a row per line, as wide as the first line. */
  function Ground(lines: seq<string>): (g: seq<nat>)
    requires WideEnough(lines)
    ensures |g| == |lines[0]| * |lines|
    ensures forall x, y :: 0 <= x < |lines[0]| && 0 <= y < |lines| ==> At(g, |lines[0]|, |lines|, x, y) == Depth0(lines[y][x])
  {
    var w, h := |lines[0]|, |lines|;
    var rows := seq(h, y requires 0 <= y < h => seq(w, x requires 0 <= x < w => Depth0(lines[y][x])));
    LayoutAt(rows, w);
    Layout(rows)
  }

  /** Reads the lines into a new grid, one cell per character, setting the '#' cells to 1. */
  method ParseGrid(lines: seq<string>) returns (grid: array<nat>)
    requires WideEnough(lines)
    ensures fresh(grid) && grid[..] == Ground(lines)
  {
    var w, h := |lines[0]|, |lines|;
    grid := new nat[w * h](_ => 0);
    for y := 0 to h
      invariant forall cx, cy :: 0 <= cx < w && 0 <= cy < h ==>
        At(grid[..], w, h, cx, cy) == if Visited(cx, cy, 0, y) then Depth0(lines[cy][cx]) else 0
    {
      for x := 0 to w
        invariant forall cx, cy :: 0 <= cx < w && 0 <= cy < h ==>
          At(grid[..], w, h, cx, cy) == if Visited(cx, cy, x, y) then Depth0(lines[cy][cx]) else 0
      {
        ghost var before := grid[..];
        var idx := Index(w, h, x, y);
        if lines[y][x] == '#' {
          grid[idx] := 1;
        }
        forall cx, cy | 0 <= cx < w && 0 <= cy < h && (cx != x || cy != y)
          ensures At(grid[..], w, h, cx, cy) == At(before, w, h, cx, cy)
        {
          IndexApart(w, h, x, y, cx, cy);
        }
      }
    }
    SameCells(grid[..], Ground(lines), w, h);
  }

  /**
   * Parts 1 to 3: parse the mine, dig at depth 2, 3, ... while a round
   * raises something, and add up the depths. Part 1 and part 2 look at
   * orthogonal neighbours only; part 3 at the diagonal ones too.
   */
  method Dig(input: string, diagonals: bool) returns (total: nat)
    requires WideEnough(Lines(input))
    ensures total == Sum(Excavated(Ground(Lines(input)), 2, |Lines(input)[0]|, |Lines(input)|, diagonals))
  {
    var lines := Lines(input);
    var w, h := |lines[0]|, |lines|;
    var grid := ParseGrid(lines);
    var depth := 2;
    ghost var before := grid[..];
    var dug := CarveDeeper(grid, depth, w, h, diagonals);
    while dug
      invariant 2 <= depth <= w + 2 && |before| == w * h && Shallow(before, w, h)
      invariant grid[..] == Carved(before, depth, w, h, diagonals)
      invariant dug <==> grid[..] != before
      invariant Excavated(before, depth, w, h, diagonals) == Excavated(Ground(lines), 2, w, h, diagonals)
      decreases w + 2 - depth
    {
      CarvedShallow(before, depth, w, h, diagonals);
      depth := depth + 1;
      before := grid[..];
      dug := CarveDeeper(grid, depth, w, h, diagonals);
    }
    total := Sum(grid[..]);
  }

  /** Part 1: orthogonal neighbours. */
  method Part1(input: string) returns (total: nat)
    requires WideEnough(Lines(input))
    ensures total == Sum(Excavated(Ground(Lines(input)), 2, |Lines(input)[0]|, |Lines(input)|, false))
  {
    total := Dig(input, false);
  }

  /** Part 2 is part 1. */
  method Part2(input: string) returns (total: nat)
    requires WideEnough(Lines(input))
    ensures total == Sum(Excavated(Ground(Lines(input)), 2, |Lines(input)[0]|, |Lines(input)|, false))
  {
    total := Part1(input);
  }

  /** Part 3: diagonal neighbours count too. */
  method Part3(input: string) returns (total: nat)
    requires WideEnough(Lines(input))
    ensures total == Sum(Excavated(Ground(Lines(input)), 2, |Lines(input)[0]|, |Lines(input)|, true))
  {
    total := Dig(input, true);
  }
}
