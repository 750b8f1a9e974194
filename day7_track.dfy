/**
 * The race track of day 7 (src/day7.rs): compass directions, steps on a
 * bounded grid, the actions written on the track, and the wall-following
 * walk that reads an ASCII drawing of a closed loop into the list of
 * actions met along it.
 *
 * Grid coordinates are those of the source: x counts columns from the left,
 * y counts lines from the BOTTOM of the drawing, so North is y + 1 and the
 * top-left corner, where the walk starts, is (0, height - 1).
 */
module Day7Track {
  import opened Wrappers
  import opened Text
  import opened Numbers

  datatype Direction = North | East | South | West

  /** A quarter turn to the right always changes the axis. */
  function RotateClockwise(d: Direction): (r: Direction)
    ensures r != d
    ensures (d == North || d == South) <==> (r == East || r == West)
  {
    match d
    case North => East
    case East => South
    case South => West
    case West => North
  }

  /** A quarter turn to the left always changes the axis. */
  function RotateCounterclockwise(d: Direction): (r: Direction)
    ensures r != d
    ensures (d == North || d == South) <==> (r == East || r == West)
  {
    match d
    case North => West
    case East => North
    case South => East
    case West => South
  }

  /** The two rotations undo each other. */
  lemma RotationsAreInverse(d: Direction)
    ensures RotateCounterclockwise(RotateClockwise(d)) == d
    ensures RotateClockwise(RotateCounterclockwise(d)) == d
  {
  }

  /** Four quarter turns clockwise come back to the start, and no fewer do. */
  lemma FourQuarterTurns(d: Direction)
    ensures RotateClockwise(RotateClockwise(RotateClockwise(RotateClockwise(d)))) == d
    ensures RotateClockwise(d) != d && RotateClockwise(RotateClockwise(d)) != d
    ensures RotateClockwise(RotateClockwise(RotateClockwise(d))) != d
  {
  }

  /** The column and line offsets of one step in direction d. */
  function Dx(d: Direction): int
  {
    match d
    case East => 1
    case West => -1
    case _ => 0
  }

  function Dy(d: Direction): int
  {
    match d
    case North => 1
    case South => -1
    case _ => 0
  }

  /**
   * try_march: the neighbouring cell in direction d, or None when the step
   * would leave the width-by-height grid. A step from a cell of the grid
   * stays in the grid exactly when the result is Some.
   */
  function TryMarch(d: Direction, x: nat, y: nat, width: nat, height: nat): (r: Option<(nat, nat)>)
    requires d == North ==> height >= 1
    requires d == East ==> width >= 1
    ensures r.Some? ==> r.value.0 as int == x + Dx(d) && r.value.1 as int == y + Dy(d)
    ensures x < width && y < height ==>
              (r.None? <==> !(0 <= x + Dx(d) < width && 0 <= y + Dy(d) < height))
  {
    match d
    case North => if y == height - 1 then None else Some((x, y + 1))
    case East => if x == width - 1 then None else Some((x + 1, y))
    case South => if y == 0 then None else Some((x, y - 1))
    case West => if x == 0 then None else Some((x - 1, y))
  }

  datatype Instruction = AddOne | SubtractOne | Maintain

  /** The characters `Instruction::from` accepts; any other one panics. */
  predicate IsInstructionChar(c: char)
  {
    c == '+' || c == '-' || c == '=' || c == 'S'
  }

  /** Instruction::from: '+' adds one, '-' subtracts one, '=' and the start mark 'S' maintain. */
  function FromChar(c: char): (i: Instruction)
    requires IsInstructionChar(c)
    ensures i == AddOne <==> c == '+'
    ensures i == SubtractOne <==> c == '-'
    ensures i == Maintain <==> c == '=' || c == 'S'
  {
    match c
    case '+' => AddOne
    case '-' => SubtractOne
    case _ => Maintain
  }

  /** The character a drawing uses for an action. */
  function ToChar(i: Instruction): char
  {
    match i
    case AddOne => '+'
    case SubtractOne => '-'
    case Maintain => '='
  }

  /** Reading back the character drawn for an action gives the action. */
  lemma FromToChar(i: Instruction)
    ensures IsInstructionChar(ToChar(i)) && FromChar(ToChar(i)) == i
  {
  }

  /** A cell of the drawing: a track action, or None for blank and padding. */
  type Cell = Option<Instruction>

  predicate IsDrawingChar(c: char)
  {
    c == ' ' || IsInstructionChar(c)
  }

  /** Every line holds only blanks and action characters (any other character panics). */
  predicate DrawingOk(lines: seq<string>)
  {
    forall k, j :: 0 <= k < |lines| && 0 <= j < |lines[k]| ==> IsDrawingChar(lines[k][j])
  }

  function CellOf(c: char): Cell
    requires IsDrawingChar(c)
  {
    if c == ' ' then None else Some(FromChar(c))
  }

  /** The width of the drawing: its longest line. */
  function MaxLength(lines: seq<string>): (w: nat)
    ensures forall k :: 0 <= k < |lines| ==> |lines[k]| <= w
    ensures |lines| > 0 ==> exists k :: 0 <= k < |lines| && |lines[k]| == w
  {
    if |lines| == 0 then 0
    else
      var rest := MaxLength(lines[1..]);
      assert forall k :: 1 <= k < |lines| ==> lines[k] == lines[1..][k - 1];
      if |lines[0]| >= rest then |lines[0]|
      else
        assert exists k :: 0 <= k < |lines[1..]| && |lines[1..][k]| == rest;
        var k :| 0 <= k < |lines[1..]| && |lines[1..][k]| == rest;
        assert lines[k + 1] == lines[1..][k];
        rest
  }

  /** One line read into cells and padded with blanks to the given width. */
  function PaddedRow(line: string, width: nat): (r: seq<Cell>)
    requires |line| <= width
    requires forall j :: 0 <= j < |line| ==> IsDrawingChar(line[j])
    ensures |r| == width
    ensures forall j :: 0 <= j < width ==> r[j] == if j < |line| then CellOf(line[j]) else None
  {
    seq(|line|, j requires 0 <= j < |line| => CellOf(line[j])) + seq(width - |line|, _ => None)
  }

  /** The cells of the drawing, line after line from the top, each padded to the width. */
  function GridCells(lines: seq<string>, width: nat): (r: seq<Cell>)
    requires DrawingOk(lines)
    requires forall k :: 0 <= k < |lines| ==> |lines[k]| <= width
    ensures |r| == |lines| * width
  {
    if |lines| == 0 then []
    else
      assert forall j :: 0 <= j < |lines[0]| ==> IsDrawingChar(lines[0][j]);
      PaddedRow(lines[0], width) + GridCells(lines[1..], width)
  }

  /** vec_idx: where the cell (x, y) sits in the flattened grid; y = 0 is the bottom line. */
  function VecIdx(x: nat, y: nat, width: nat, height: nat): nat
    requires y < height
  {
    (height - y - 1) * width + x
  }

  /** The cell (x, y) of a drawing of the given width, y counting lines from the bottom. */
  function CellAt(lines: seq<string>, width: nat, x: nat, y: nat): Cell
    requires DrawingOk(lines)
    requires forall k :: 0 <= k < |lines| ==> |lines[k]| <= width
    requires x < width && y < |lines|
  {
    var row := lines[|lines| - 1 - y];
    if x < |row| then CellOf(row[x]) else None
  }

  /** grid holds at vec_idx(x, y) the cell (x, y) of the drawing, for every cell of the grid. */
  ghost predicate GridHolds(grid: seq<Cell>, lines: seq<string>, width: nat)
    requires DrawingOk(lines)
    requires forall k :: 0 <= k < |lines| ==> |lines[k]| <= width
  {
    forall x: nat, y: nat :: x < width && y < |lines| ==>
      VecIdx(x, y, width, |lines|) < |grid| && grid[VecIdx(x, y, width, |lines|)] == CellAt(lines, width, x, y)
  }

  /** The flattened grid holds, at vec_idx(x, y), the cell (x, y) of the drawing. */
  lemma {:induction false} GridCellsAt(lines: seq<string>, width: nat, x: nat, y: nat)
    requires DrawingOk(lines)
    requires forall k :: 0 <= k < |lines| ==> |lines[k]| <= width
    requires x < width && y < |lines|
    ensures VecIdx(x, y, width, |lines|) < |GridCells(lines, width)|
    ensures GridCells(lines, width)[VecIdx(x, y, width, |lines|)] == CellAt(lines, width, x, y)
    decreases |lines|
  {
    var h := |lines|;
    var rest := lines[1..];
    DrawingTail(lines, width);
    var g := GridCells(lines, width);
    assert g == PaddedRow(lines[0], width) + GridCells(rest, width);
    if y == h - 1 {
      assert VecIdx(x, y, width, h) == x;
      assert g[x] == PaddedRow(lines[0], width)[x];
      assert PaddedRow(lines[0], width)[x] == CellAt(lines, width, x, y);
    } else {
      GridCellsAt(rest, width, x, y);
      var i := VecIdx(x, y, width, h - 1);
      MulSucc(h - 1 - y - 1, width);
      assert VecIdx(x, y, width, h) == width + i;
      assert g[width + i] == GridCells(rest, width)[i];
      assert lines[h - 1 - y] == rest[h - 2 - y];
      assert CellAt(lines, width, x, y) == CellAt(rest, width, x, y);
    }
  }

  /** The lines after the first are a drawing of the same width, and the first line is made of drawing characters. */
  lemma DrawingTail(lines: seq<string>, width: nat)
    requires DrawingOk(lines) && |lines| > 0
    requires forall k :: 0 <= k < |lines| ==> |lines[k]| <= width
    ensures DrawingOk(lines[1..]) && forall k :: 0 <= k < |lines[1..]| ==> |lines[1..][k]| <= width
    ensures forall j :: 0 <= j < |lines[0]| ==> IsDrawingChar(lines[0][j])
  {
    assert forall k :: 0 <= k < |lines[1..]| ==> lines[1..][k] == lines[k + 1];
  }

  /**
   * One turn of the walk: from (x, y) facing d, the first of turning right,
   * going straight and turning left whose step stays on the grid and lands
   * on a track cell. None when none does: the source then panics (the left
   * cell is blank) or spins forever (the left step leaves the grid).
   */
  function Turn(lines: seq<string>, width: nat, x: nat, y: nat, d: Direction): (r: Option<(nat, nat, Direction)>)
    requires DrawingOk(lines)
    requires forall k :: 0 <= k < |lines| ==> |lines[k]| <= width
    requires x < width && y < |lines|
    ensures r.Some? ==> r.value.0 < width && r.value.1 < |lines| && CellAt(lines, width, r.value.0, r.value.1).Some?
  {
    var h := |lines|;
    var right := RotateClockwise(d);
    var left := RotateCounterclockwise(d);
    var toRight := TryMarch(right, x, y, width, h);
    var ahead := TryMarch(d, x, y, width, h);
    var toLeft := TryMarch(left, x, y, width, h);
    if toRight.Some? && CellAt(lines, width, toRight.value.0, toRight.value.1).Some? then
      Some((toRight.value.0, toRight.value.1, right))
    else if ahead.Some? && CellAt(lines, width, ahead.value.0, ahead.value.1).Some? then
      Some((ahead.value.0, ahead.value.1, d))
    else if toLeft.Some? && CellAt(lines, width, toLeft.value.0, toLeft.value.1).Some? then
      Some((toLeft.value.0, toLeft.value.1, left))
    else
      None
  }

  /**
   * The actions read from (x, y) facing d until the walk is back at the
   * top-left corner, within fuel steps: one per cell left behind. None when
   * the walk does not close within fuel steps, reads a blank cell, or gets
   * stuck.
   */
  function Walk(lines: seq<string>, width: nat, x: nat, y: nat, d: Direction, fuel: nat): (r: Option<seq<Instruction>>)
    requires DrawingOk(lines)
    requires forall k :: 0 <= k < |lines| ==> |lines[k]| <= width
    requires x < width && y < |lines|
    ensures r.Some? ==> |r.value| <= fuel
    ensures r == Some([]) <==> x == 0 && y == |lines| - 1
    decreases fuel
  {
    if x == 0 && y == |lines| - 1 then Some([])
    else if fuel == 0 then None
    else match CellAt(lines, width, x, y)
      case None => None
      case Some(i) =>
        match Turn(lines, width, x, y, d)
        case None => None
        case Some((x', y', d')) =>
          match Walk(lines, width, x', y', d', fuel - 1)
          case None => None
          case Some(rest) => Some([i] + rest)
  }

  /**
   * What track_from_ascii returns for a drawing, walking with at most fuel
   * steps: the actions from the cell east of the top-left corner round to
   * the corner, then the start's Maintain. None when the source would
   * panic (no line, a character that is not an action, a width of one,
   * a blank cell met) or not return within fuel steps.
   */
  function TrackSpec(ascii: string, fuel: nat): (r: Option<seq<Instruction>>)
    ensures r.Some? ==> |r.value| >= 1 && r.value[|r.value| - 1] == Maintain
  {
    var lines := Lines(ascii);
    var width := MaxLength(lines);
    if |lines| == 0 || !DrawingOk(lines) || width < 2 then None
    else match Walk(lines, width, 1, |lines| - 1, East, fuel)
      case None => None
      case Some(steps) => Some(steps + [Maintain])
  }

  /**
   * track_from_ascii: pads the drawing into a grid, then walks the loop from
   * the top-left corner, keeping the wall on the right, and records the
   * action of every cell it leaves until it is back at the corner; the
   * corner's 'S' comes last. The ghost fuel bounds the number of steps.
   */
  method TrackFromAscii(ascii: string, ghost fuel: nat) returns (track: seq<Instruction>)
    requires TrackSpec(ascii, fuel).Some?
    ensures Some(track) == TrackSpec(ascii, fuel)
  {
    var lines := Lines(ascii);
    var width := MaxLength(lines);
    var instructions, height := ReadGrid(lines, width);
    track := FollowTrack(instructions, lines, width, fuel);
    track := track + [FromChar('S')];
  }

  /**
   * The second loop of track_from_ascii: from the top-left corner, step
   * east, then keep turning right when possible, else straight, else left,
   * recording the action of every cell left behind, until the corner is
   * reached again.
   */
  method FollowTrack(instructions: seq<Cell>, lines: seq<string>, width: nat, ghost fuel: nat)
    returns (track: seq<Instruction>)
    requires DrawingOk(lines)
    requires forall k :: 0 <= k < |lines| ==> |lines[k]| <= width
    requires GridHolds(instructions, lines, width)
    requires |lines| >= 1 && width >= 2
    requires Walk(lines, width, 1, |lines| - 1, East, fuel).Some?
    ensures Some(track) == Walk(lines, width, 1, |lines| - 1, East, fuel)
  {
    var height := |lines|;
    var x: nat, y: nat := 0, height - 1;
    var dir := East;
    var next := TryMarch(dir, x, y, width, height);
    x, y := next.value.0, next.value.1;
    ghost var walk := Walk(lines, width, 1, height - 1, East, fuel).value;
    ghost var rest := walk;
    ghost var left := fuel;
    track := [];
    while !(x == 0 && y == height - 1)
      invariant x < width && y < height
      invariant Walk(lines, width, x, y, dir, left) == Some(rest)
      invariant walk == track + rest
      decreases left
    {
      WalkTurns(lines, width, x, y, dir, left);
      var c := CellAtGrid(instructions, lines, width, x, y);
      var x', y', dir' := NextCell(instructions, lines, width, x, y, dir);
      rest := FollowStep(lines, width, x, y, dir, left, x', y', dir', track, rest, walk);
      track := track + [c.value];
      x, y, dir := x', y', dir';
      left := left - 1;
    }
    WalkAtCorner(lines, width, x, y, dir, left);
    assert track + [] == track;
  }

  /**
   * The first loop of track_from_ascii: every line is read into cells,
   * padded with blanks to the width, and appended to the flat grid; the
   * lines are counted as it goes.
   */
  method ReadGrid(lines: seq<string>, width: nat) returns (instructions: seq<Cell>, height: nat)
    requires DrawingOk(lines)
    requires forall k :: 0 <= k < |lines| ==> |lines[k]| <= width
    ensures instructions == GridCells(lines, width) && height == |lines|
    ensures GridHolds(instructions, lines, width)
  {
    height := 0;
    instructions := [];
    for k := 0 to |lines|
      invariant height == k
      invariant instructions == GridCells(lines[..k], width)
    {
      assert forall j :: 0 <= j < |lines[k]| ==> IsDrawingChar(lines[k][j]);
      instructions := instructions + PaddedRow(lines[k], width);
      height := height + 1;
      GridCellsSnoc(lines[..k], lines[k], width);
      assert lines[..k + 1] == lines[..k] + [lines[k]];
    }
    assert lines[..|lines|] == lines;
    forall x: nat, y: nat | x < width && y < |lines|
      ensures VecIdx(x, y, width, |lines|) < |instructions|
      ensures instructions[VecIdx(x, y, width, |lines|)] == CellAt(lines, width, x, y)
    {
      GridCellsAt(lines, width, x, y);
    }
  }

  /** A walk that closes and is not yet at the corner reads a track cell and can turn. */
  lemma WalkTurns(lines: seq<string>, width: nat, x: nat, y: nat, d: Direction, fuel: nat)
    requires DrawingOk(lines)
    requires forall k :: 0 <= k < |lines| ==> |lines[k]| <= width
    requires x < width && y < |lines|
    requires Walk(lines, width, x, y, d, fuel).Some? && !(x == 0 && y == |lines| - 1)
    ensures fuel >= 1 && CellAt(lines, width, x, y).Some? && Turn(lines, width, x, y, d).Some?
  {
  }

  /**
   * One step of the loop: the walk still to go loses its first action, the
   * cell's, which moves to the end of the track recorded so far.
   */
  lemma FollowStep(lines: seq<string>, width: nat, x: nat, y: nat, d: Direction, fuel: nat,
                   x': nat, y': nat, d': Direction, track: seq<Instruction>, rest: seq<Instruction>,
                   walk: seq<Instruction>)
    returns (rest': seq<Instruction>)
    requires DrawingOk(lines)
    requires forall k :: 0 <= k < |lines| ==> |lines[k]| <= width
    requires x < width && y < |lines| && !(x == 0 && y == |lines| - 1)
    requires Walk(lines, width, x, y, d, fuel) == Some(rest) && walk == track + rest
    requires Turn(lines, width, x, y, d) == Some((x', y', d'))
    ensures fuel >= 1 && x' < width && y' < |lines| && CellAt(lines, width, x, y).Some?
    ensures Walk(lines, width, x', y', d', fuel - 1) == Some(rest')
    ensures walk == track + [CellAt(lines, width, x, y).value] + rest'
  {
    rest' := Walk(lines, width, x', y', d', fuel - 1).value;
    assert rest == [CellAt(lines, width, x, y).value] + rest';
  }

  /** At the corner the walk is over. */
  lemma WalkAtCorner(lines: seq<string>, width: nat, x: nat, y: nat, d: Direction, fuel: nat)
    requires DrawingOk(lines)
    requires forall k :: 0 <= k < |lines| ==> |lines[k]| <= width
    requires x < width && y < |lines| && x == 0 && y == |lines| - 1
    ensures Walk(lines, width, x, y, d, fuel) == Some([])
  {
  }

  /**
   * The turning rule of track_from_ascii's loop: turn right if that cell is
   * track, else go straight if that cell is track, else turn left. The
   * caller guarantees one of them works; otherwise the source panics or
   * never leaves the cell.
   */
  method NextCell(grid: seq<Cell>, lines: seq<string>, width: nat, x: nat, y: nat, dir: Direction)
    returns (x': nat, y': nat, dir': Direction)
    requires DrawingOk(lines)
    requires forall k :: 0 <= k < |lines| ==> |lines[k]| <= width
    requires GridHolds(grid, lines, width)
    requires x < width && y < |lines|
    requires Turn(lines, width, x, y, dir).Some?
    ensures Turn(lines, width, x, y, dir) == Some((x', y', dir'))
  {
    var height := |lines|;
    var right := RotateClockwise(dir);
    var next := TryMarch(right, x, y, width, height);
    if next.Some? && CellAtGrid(grid, lines, width, next.value.0, next.value.1).Some? {
      return next.value.0, next.value.1, right;
    }
    next := TryMarch(dir, x, y, width, height);
    if next.Some? && CellAtGrid(grid, lines, width, next.value.0, next.value.1).Some? {
      return next.value.0, next.value.1, dir;
    }
    var leftDir := RotateCounterclockwise(dir);
    next := TryMarch(leftDir, x, y, width, height);
    if next.Some? {
      if CellAtGrid(grid, lines, width, next.value.0, next.value.1).Some? {
        return next.value.0, next.value.1, leftDir;
      }
      // "No way out": the source panics here
      assert false;
    }
    // the source tries again from the same cell, forever
    assert false;
  }

  /** Reads the flattened grid at (x, y), which is the drawing's cell there. */
  function CellAtGrid(grid: seq<Cell>, lines: seq<string>, width: nat, x: nat, y: nat): (c: Cell)
    requires DrawingOk(lines)
    requires forall k :: 0 <= k < |lines| ==> |lines[k]| <= width
    requires GridHolds(grid, lines, width)
    requires x < width && y < |lines|
    ensures c == CellAt(lines, width, x, y)
  {
    grid[VecIdx(x, y, width, |lines|)]
  }

  /** Reading one more line appends its padded row to the grid. */
  lemma {:induction false} GridCellsSnoc(lines: seq<string>, line: string, width: nat)
    requires DrawingOk(lines) && forall j :: 0 <= j < |line| ==> IsDrawingChar(line[j])
    requires forall k :: 0 <= k < |lines| ==> |lines[k]| <= width
    requires |line| <= width
    ensures DrawingOk(lines + [line])
    ensures forall k :: 0 <= k < |lines + [line]| ==> |(lines + [line])[k]| <= width
    ensures GridCells(lines + [line], width) == GridCells(lines, width) + PaddedRow(line, width)
    decreases |lines|
  {
    DrawingSnoc(lines, line, width);
    if |lines| > 0 {
      var more := lines + [line];
      DrawingTail(lines, width);
      DrawingTail(more, width);
      assert more[1..] == lines[1..] + [line];
      GridCellsSnoc(lines[1..], line, width);
      assert more[0] == lines[0];
    }
  }

  /** One more line of drawing characters, no wider than the width, keeps a drawing of that width. */
  lemma DrawingSnoc(lines: seq<string>, line: string, width: nat)
    requires DrawingOk(lines) && forall j :: 0 <= j < |line| ==> IsDrawingChar(line[j])
    requires forall k :: 0 <= k < |lines| ==> |lines[k]| <= width
    requires |line| <= width
    ensures DrawingOk(lines + [line])
    ensures forall k :: 0 <= k < |lines + [line]| ==> |(lines + [line])[k]| <= width
  {
    var more := lines + [line];
    assert forall k :: 0 <= k < |lines| ==> lines[k] == more[k];
    assert line == more[|lines|];
  }
}
