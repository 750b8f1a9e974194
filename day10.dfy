/**
 * The runic shrine of day 10 (src/day10.rs): an 8-by-8 block whose top two
 * and bottom two lines hold four column letters each and whose middle four
 * lines hold row letters. The runic word has one letter per inner cell,
 * the first letter of its row that its column also holds; its power weighs
 * each letter by its place in the alphabet and its place in the word.
 */
module Day10 {
  import opened Text
  import opened Numbers

  /** The first n elements of s, or all of s when it is shorter: take(n). */
  function Take<T>(s: seq<T>, n: nat): (r: seq<T>)
    ensures |r| == if n <= |s| then n else |s|
    ensures forall i :: 0 <= i < |r| ==> r[i] == s[i]
  {
    if n <= |s| then s[..n] else s
  }

  /** s without its first n elements, or nothing when it is shorter: skip(n). */
  function Drop<T>(s: seq<T>, n: nat): (r: seq<T>)
    ensures |r| == if n <= |s| then |s| - n else 0
    ensures forall i :: 0 <= i < |r| ==> r[i] == s[n + i]
  {
    if n <= |s| then s[n..] else []
  }

  /** The characters of s other than '.', in order: filter(|c| c != '.'). */
  function NoDots(s: string): (r: string)
    ensures '.' !in r && |r| <= |s|
    ensures forall c :: c in r <==> c in s && c != '.'
  {
    if s == [] then []
    else NoDots(s[..|s| - 1]) + (if s[|s| - 1] == '.' then [] else [s[|s| - 1]])
  }

  /** The lines of the block whose top is line oy: skip(offset_y).take(8). */
  function Block(input: string, oy: nat): (block: seq<string>)
    ensures |block| <= 8
  {
    Take(Drop(Lines(input), oy), 8)
  }

  /**
   * Column c of a block read from its first i lines: the character 2 + ox + c
   * along of each of the lines 0, 1, 6 and 7 that reaches that far.
   */
  function ColumnLetters(block: seq<string>, ox: nat, c: nat): string
  {
    if block == [] then []
    else
      var i := |block| - 1;
      ColumnLetters(block[..i], ox, c) + (if (i < 2 || i >= 6) && 2 + ox + c < |block[i]| then [block[i][2 + ox + c]] else [])
  }

  /** Row r of a block: the characters of its line 2 + r from ox on, the dots dropped. */
  function RowLetters(block: seq<string>, ox: nat, r: nat): string
  {
    if 2 + r < |block| then NoDots(Drop(block[2 + r], ox)) else []
  }

  /**
   * parse_input: reads the block at (ox, oy) line by line, pushing the four
   * characters after 2 + ox of a top or bottom line onto the four columns
   * and adding a middle line's letters from ox on to its row.
   */
  method ParseInput(input: string, ox: nat, oy: nat) returns (columns: seq<string>, rows: seq<string>)
    ensures columns == BlockColumns(input, ox, oy) && rows == BlockRows(input, ox, oy)
  {
    columns := ["", "", "", ""];
    rows := ["", "", "", ""];
    var block := Block(input, oy);
    for i := 0 to |block|
      invariant ParsedUpTo(block, ox, i, columns, rows)
    {
      columns, rows := ParseLine(block, ox, i, columns, rows);
    }
    assert block[..|block|] == block;
  }

  /** The columns and rows hold the letters of the first i lines of the block. */
  ghost predicate ParsedUpTo(block: seq<string>, ox: nat, i: nat, columns: seq<string>, rows: seq<string>)
    requires i <= |block|
  {
    && |columns| == 4 && |rows| == 4
    && (forall c :: 0 <= c < 4 ==> columns[c] == ColumnLetters(block[..i], ox, c))
    && (forall r :: 0 <= r < 4 ==> rows[r] == if 2 + r < i then RowLetters(block, ox, r) else "")
  }

  /** One pass of parse_input's loop: line i goes to the columns or to its row. */
  method ParseLine(block: seq<string>, ox: nat, i: nat, columns: seq<string>, rows: seq<string>)
    returns (columns': seq<string>, rows': seq<string>)
    requires i < |block| && ParsedUpTo(block, ox, i, columns, rows)
    ensures ParsedUpTo(block, ox, i + 1, columns', rows')
  {
    var line := block[i];
    if i < 2 || i >= 6 {
      var letters := Take(Drop(line, 2 + ox), 4);
      ColumnsStep(block, ox, i, columns, letters);
      columns' := PushColumns(columns, letters);
      rows' := rows;
    } else {
      ColumnsStep(block, ox, i, columns, []);
      var letters := NoDots(Drop(line, ox));
      assert rows[i - 2] + letters == RowLetters(block, ox, i - 2);
      columns' := columns;
      rows' := rows[i - 2 := rows[i - 2] + letters];
    }
  }

  /** One more line of the block adds its letters to the columns, for a top or bottom line, and nothing otherwise. */
  lemma ColumnsStep(block: seq<string>, ox: nat, i: nat, columns: seq<string>, letters: string)
    requires i < |block| && |columns| == 4
    requires forall c :: 0 <= c < 4 ==> columns[c] == ColumnLetters(block[..i], ox, c)
    requires letters == if i < 2 || i >= 6 then Take(Drop(block[i], 2 + ox), 4) else []
    ensures forall c :: 0 <= c < 4 ==>
      ColumnLetters(block[..i + 1], ox, c) == columns[c] + if c < |letters| then [letters[c]] else []
  {
    assert block[..i + 1][..i] == block[..i];
    forall c | 0 <= c < 4
      ensures ColumnLetters(block[..i + 1], ox, c) == columns[c] + if c < |letters| then [letters[c]] else []
    {
      assert block[..i + 1][i] == block[i];
      if c < |letters| {
        assert letters[c] == block[i][2 + ox + c];
      }
    }
  }

  /** Pushes the i-th of up to four letters onto the i-th column. */
  method PushColumns(columns: seq<string>, letters: string) returns (pushed: seq<string>)
    requires |columns| == 4 && |letters| <= 4
    ensures |pushed| == 4
    ensures forall c :: 0 <= c < 4 ==> pushed[c] == columns[c] + if c < |letters| then [letters[c]] else []
  {
    pushed := columns;
    for col := 0 to |letters|
      invariant |pushed| == 4
      invariant forall c :: 0 <= c < 4 ==> pushed[c] == columns[c] + if c < col then [letters[c]] else []
    {
      pushed := pushed[col := pushed[col] + [letters[col]]];
    }
  }

  /** The four columns of the block at (ox, oy). */
  function BlockColumns(input: string, ox: nat, oy: nat): (columns: seq<string>)
    ensures |columns| == 4 && forall c :: 0 <= c < 4 ==> columns[c] == ColumnLetters(Block(input, oy), ox, c)
  {
    seq(4, c requires 0 <= c < 4 => ColumnLetters(Block(input, oy), ox, c))
  }

  /** The four rows of the block at (ox, oy). */
  function BlockRows(input: string, ox: nat, oy: nat): (rows: seq<string>)
    ensures |rows| == 4 && forall r :: 0 <= r < 4 ==> rows[r] == RowLetters(Block(input, oy), ox, r)
  {
    seq(4, r requires 0 <= r < 4 => RowLetters(Block(input, oy), ox, r))
  }

  /** The first character of row that col also holds, or '?' when there is none. */
  function FirstShared(row: string, col: string): (r: char)
    ensures r == '?' || (r in row && r in col)
  {
    if row == [] then '?' else if row[0] in col then row[0] else FirstShared(row[1..], col)
  }

  /**
   * What FirstShared finds: the character at the first place j of row whose
   * character col holds, or '?' when col holds none of them.
   */
  lemma {:induction false} FirstSharedMeans(row: string, col: string, j: nat)
    requires j <= |row| && forall k :: 0 <= k < j ==> row[k] !in col
    ensures j < |row| && row[j] in col ==> FirstShared(row, col) == row[j]
    ensures j == |row| ==> FirstShared(row, col) == '?'
    decreases j
  {
    if j > 0 {
      FirstSharedMeans(row[1..], col, j - 1);
    } else if row != [] {
      assert row[0] == row[j];
    }
  }

  /** The search of one cell: walk the row and stop at the first character the column holds. */
  method Shared(row: string, col: string) returns (c: char)
    ensures c == FirstShared(row, col)
  {
    var found := false;
    c := '?';
    for j := 0 to |row|
      invariant !found && FirstShared(row[j..], col) == FirstShared(row, col)
    {
      if row[j] in col {
        c := row[j];
        found := true;
        break;
      }
      assert row[j..][1..] == row[j + 1..];
    }
  }

  /** The runic word of four columns and four rows: cell (x, y) is letter 4 * y + x. */
  function Word(columns: seq<string>, rows: seq<string>): (word: string)
    requires |columns| == 4 && |rows| == 4
    ensures |word| == 16
    ensures forall y, x :: 0 <= y < 4 && 0 <= x < 4 ==> word[4 * y + x] == FirstShared(rows[y], columns[x])
  {
    seq(16, k requires 0 <= k < 16 => FirstShared(rows[k / 4], columns[k % 4]))
  }

  /** runic_word: the cells row by row, each the first letter its row and column share, or '?'. */
  method RunicWord(columns: seq<string>, rows: seq<string>) returns (word: string)
    requires |columns| == 4 && |rows| == 4
    ensures word == Word(columns, rows)
  {
    word := "";
    for y := 0 to 4
      invariant |word| == 4 * y
      invariant forall k :: 0 <= k < |word| ==> word[k] == FirstShared(rows[k / 4], columns[k % 4])
    {
      for x := 0 to 4
        invariant |word| == 4 * y + x
        invariant forall k :: 0 <= k < |word| ==> word[k] == FirstShared(rows[k / 4], columns[k % 4])
      {
        var c := Shared(rows[y], columns[x]);
        word := word + [c];
      }
    }
  }

  /** The byte of a character: c as u8 keeps its low eight bits. */
  function Byte(c: char): nat
  {
    c as int % 256
  }

  /** Whether every character's byte is at least that of 'A': what the u8 subtraction needs. */
  predicate Powered(s: string)
  {
    forall i :: 0 <= i < |s| ==> Byte(s[i]) >= 'A' as int
  }

  /** runic_word_power: letter i weighs (its byte - 'A' + 1) * (i + 1). */
  function Power(s: string): (r: nat)
    requires Powered(s)
    ensures r == 0 <==> s == []
  {
    if s == [] then 0 else Power(s[..|s| - 1]) + (Byte(s[|s| - 1]) - 'A' as int + 1) * |s|
  }

  /** 1 + 2 + ... + n. */
  function Triangle(n: nat): nat
  {
    if n == 0 then 0 else Triangle(n - 1) + n
  }

  /**
   * Each letter weighs at least its place, and a word of capitals at most
   * 26 times it: Power lies between Triangle(|s|) and 26 * Triangle(|s|).
   */
  lemma {:induction false} PowerBounds(s: string)
    requires Powered(s)
    ensures Power(s) >= Triangle(|s|)
    ensures (forall i :: 0 <= i < |s| ==> 'A' <= s[i] <= 'Z') ==> Power(s) <= 26 * Triangle(|s|)
    decreases |s|
  {
    if s != [] {
      var init, c := s[..|s| - 1], s[|s| - 1];
      assert Powered(init);
      PowerBounds(init);
      var b := Byte(c) - 'A' as int + 1;
      assert Power(s) == Power(init) + b * |s|;
      assert Triangle(|s|) == Triangle(|init|) + |s|;
      MulMonotone(1, b, |s|);
      if forall i :: 0 <= i < |s| ==> 'A' <= s[i] <= 'Z' {
        assert forall i :: 0 <= i < |init| ==> init[i] == s[i];
        assert 'A' <= c <= 'Z';
        assert b <= 26;
        MulMonotone(b, 26, |s|);
      }
    }
  }

  /** Appending a letter to a word of power p adds its weight times the new length. */
  lemma PowerSnoc(s: string, c: char, p: nat)
    requires Powered(s) && Power(s) == p && Byte(c) >= 'A' as int
    ensures Powered(s + [c]) && Power(s + [c]) == p + (Byte(c) - 'A' as int + 1) * (|s| + 1)
  {
    var t := s + [c];
    assert t[..|s|] == s && t[|s|] == c;
    assert Powered(t) by {
      forall i | 0 <= i < |t|
        ensures Byte(t[i]) >= 'A' as int
      {
        if i < |s| {
          assert t[i] == s[i];
        }
      }
    }
  }

  /** The weights of the first k letters of s, added up by position. */
  function Weights(s: string, k: nat): int
    requires k <= |s|
  {
    if k == 0 then 0 else Weights(s, k - 1) + (Byte(s[k - 1]) - 'A' as int + 1) * k
  }

  /** Whether the first k letters of s have bytes of at least 'A'. */
  predicate PoweredUpTo(s: string, k: nat)
    requires k <= |s|
  {
    k == 0 || (PoweredUpTo(s, k - 1) && Byte(s[k - 1]) >= 'A' as int)
  }

  /** Power is the positional sum of the weights. */
  lemma {:induction false} PowerIsWeights(s: string, k: nat)
    requires k <= |s| && PoweredUpTo(s, k)
    ensures Powered(s[..k]) && Power(s[..k]) == Weights(s, k)
    decreases k
  {
    if k == 0 {
      assert s[..0] == [];
    } else {
      PowerIsWeights(s, k - 1);
      PowerSnoc(s[..k - 1], s[k - 1], Weights(s, k - 1));
      assert s[..k - 1] + [s[k - 1]] == s[..k];
    }
  }

  /** The power of the word in the part 2 test of src/day10.rs:146-147: 1851. */
  lemma PowerExample(w: string)
    requires w == "PTBVRCZHFLJWGMNS"
    ensures Powered(w) && Power(w) == 1851
  {
    assert PoweredUpTo(w, 0) && Weights(w, 0) == 0;
    assert w[0] == 'P' && Byte('P') == 80;
    assert PoweredUpTo(w, 1) && Weights(w, 1) == 16;
    assert w[1] == 'T' && Byte('T') == 84;
    assert PoweredUpTo(w, 2) && Weights(w, 2) == 56;
    assert w[2] == 'B' && Byte('B') == 66;
    assert PoweredUpTo(w, 3) && Weights(w, 3) == 62;
    assert w[3] == 'V' && Byte('V') == 86;
    assert PoweredUpTo(w, 4) && Weights(w, 4) == 150;
    assert w[4] == 'R' && Byte('R') == 82;
    assert PoweredUpTo(w, 5) && Weights(w, 5) == 240;
    assert w[5] == 'C' && Byte('C') == 67;
    assert PoweredUpTo(w, 6) && Weights(w, 6) == 258;
    assert w[6] == 'Z' && Byte('Z') == 90;
    assert PoweredUpTo(w, 7) && Weights(w, 7) == 440;
    assert w[7] == 'H' && Byte('H') == 72;
    assert PoweredUpTo(w, 8) && Weights(w, 8) == 504;
    assert w[8] == 'F' && Byte('F') == 70;
    assert PoweredUpTo(w, 9) && Weights(w, 9) == 558;
    assert w[9] == 'L' && Byte('L') == 76;
    assert PoweredUpTo(w, 10) && Weights(w, 10) == 678;
    assert w[10] == 'J' && Byte('J') == 74;
    assert PoweredUpTo(w, 11) && Weights(w, 11) == 788;
    assert w[11] == 'W' && Byte('W') == 87;
    assert PoweredUpTo(w, 12) && Weights(w, 12) == 1064;
    assert w[12] == 'G' && Byte('G') == 71;
    assert PoweredUpTo(w, 13) && Weights(w, 13) == 1155;
    assert w[13] == 'M' && Byte('M') == 77;
    assert PoweredUpTo(w, 14) && Weights(w, 14) == 1337;
    assert w[14] == 'N' && Byte('N') == 78;
    assert PoweredUpTo(w, 15) && Weights(w, 15) == 1547;
    assert w[15] == 'S' && Byte('S') == 83;
    assert PoweredUpTo(w, 16) && Weights(w, 16) == 1851;
    PowerIsWeights(w, 16);
    assert w[..16] == w;
  }

  /** The runic word of the block at (ox, oy). */
  function BlockWord(input: string, ox: nat, oy: nat): (word: string)
    ensures |word| == 16
  {
    Word(BlockColumns(input, ox, oy), BlockRows(input, ox, oy))
  }

  /** Part 1: the runic word of the block at the top left. */
  method Part1(input: string) returns (word: string)
    ensures word == BlockWord(input, 0, 0)
  {
    var columns, rows := ParseInput(input, 0, 0);
    word := RunicWord(columns, rows);
  }

  /** The words of the blocks of row y of the tiling, left to right, stride apart. */
  function TileRow(input: string, stride: nat, across: nat, y: nat): (words: seq<string>)
    ensures |words| == across
  {
    seq(across, x requires 0 <= x < across => BlockWord(input, x * stride, y * stride))
  }

  /** The words of the first down rows of the tiling, row after row. */
  function Tiles(input: string, stride: nat, across: nat, down: nat): seq<string>
  {
    if down == 0 then [] else Tiles(input, stride, across, down - 1) + TileRow(input, stride, across, down - 1)
  }

  /** The power of each word, added up: map(runic_word_power).sum(). */
  function TotalPower(words: seq<string>): nat
    requires forall i :: 0 <= i < |words| ==> Powered(words[i])
  {
    if words == [] then 0 else TotalPower(words[..|words| - 1]) + Power(words[|words| - 1])
  }

  /** The total power grows with each word: a word with a letter adds at least one. */
  lemma {:induction false} TotalPowerAppend(words: seq<string>, w: string)
    requires forall i :: 0 <= i < |words| ==> Powered(words[i])
    requires Powered(w)
    ensures TotalPower(words + [w]) == TotalPower(words) + Power(w) && TotalPower(words + [w]) >= TotalPower(words) + Triangle(|w|)
  {
    assert (words + [w])[..|words|] == words;
    PowerBounds(w);
  }

  /**
   * Collects the words of the tiling, down rows of across blocks with their
   * corners stride apart, and adds up their powers.
   */
  method TilePower(input: string, stride: nat, across: nat, down: nat) returns (total: nat)
    requires forall w :: w in Tiles(input, stride, across, down) ==> Powered(w)
    ensures total == TotalPower(Tiles(input, stride, across, down))
  {
    var words: seq<string> := [];
    for y := 0 to down
      invariant words == Tiles(input, stride, across, y)
    {
      for x := 0 to across
        invariant words == Tiles(input, stride, across, y) + TileRow(input, stride, across, y)[..x]
      {
        var columns, rows := ParseInput(input, x * stride, y * stride);
        var word := RunicWord(columns, rows);
        assert TileRow(input, stride, across, y)[..x + 1] == TileRow(input, stride, across, y)[..x] + [word];
        words := words + [word];
      }
      assert TileRow(input, stride, across, y)[..across] == TileRow(input, stride, across, y);
    }
    TilesPowered(input, stride, across, down);
    total := TotalPower(words);
  }

  /** Tiles of fewer rows are a prefix of the tiles of more. */
  lemma {:induction false} TilesPrefix(input: string, stride: nat, across: nat, down: nat, more: nat)
    requires down <= more
    ensures Tiles(input, stride, across, down) <= Tiles(input, stride, across, more)
    decreases more
  {
    if down < more {
      TilesPrefix(input, stride, across, down, more - 1);
    }
  }

  /** The words-are-powered requirement in indexed form. */
  lemma TilesPowered(input: string, stride: nat, across: nat, down: nat)
    requires forall w :: w in Tiles(input, stride, across, down) ==> Powered(w)
    ensures forall i :: 0 <= i < |Tiles(input, stride, across, down)| ==> Powered(Tiles(input, stride, across, down)[i])
  {
  }

  /** The width of the input: the characters of its first line. */
  function Width(input: string): nat
    requires |Lines(input)| >= 1
  {
    |Lines(input)[0]|
  }

  /** Part 2: blocks tiled nine apart, (width + 1) / 9 across and (height + 1) / 9 down. */
  method Part2(input: string) returns (result: string)
    requires |Lines(input)| >= 1
    requires forall w :: w in Tiles(input, 9, (Width(input) + 1) / 9, (|Lines(input)| + 1) / 9) ==> Powered(w)
    ensures result == ShowNat(TotalPower(Tiles(input, 9, (Width(input) + 1) / 9, (|Lines(input)| + 1) / 9)))
  {
    var total := TilePower(input, 9, (Width(input) + 1) / 9, (|Lines(input)| + 1) / 9);
    result := ShowNat(total);
  }

  /** Part 3: blocks sharing their edges, six apart, (width - 2) / 6 across and (height - 2) / 6 down. */
  method Part3(input: string) returns (result: string)
    requires |Lines(input)| >= 2 && Width(input) >= 2
    requires forall w :: w in Tiles(input, 6, (Width(input) - 2) / 6, (|Lines(input)| - 2) / 6) ==> Powered(w)
    ensures result == ShowNat(TotalPower(Tiles(input, 6, (Width(input) - 2) / 6, (|Lines(input)| - 2) / 6)))
  {
    var total := TilePower(input, 6, (Width(input) - 2) / 6, (|Lines(input)| - 2) / 6);
    result := ShowNat(total);
  }
}
