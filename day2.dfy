/**
 * Day 2: runic words. A line of text is searched for a list of words,
 * forwards and backwards; the solver marks every character that belongs to
 * some occurrence. In ring mode the line is read round and round; in
 * linear mode a sentinel '$' is put after the line, so that no word read
 * round the end can match. Part 1 counts occurrences, part 2 counts marked
 * characters per line and part 3 marks a grid by rows (ring mode) and by
 * columns (linear mode).
 */
module Day2 {
  import opened Text

  /** The line get_match_mask works on: the line itself in ring mode, with the sentinel after it in linear mode. */
  function Extended(line: string, ring: bool): (r: string)
    ensures |r| == if ring then |line| else |line| + 1
  {
    if ring then line else line + "$"
  }

  /** s rotated left i times, as VecDeque::rotate_left leaves it. */
  function Rotate<T>(s: seq<T>, i: nat): (r: seq<T>)
    requires i <= |s|
    ensures |r| == |s|
  {
    s[i..] + s[..i]
  }

  /** The entry of s that comes to index j when s is rotated left i times. */
  function Home(i: nat, j: nat, len: nat): nat
  {
    if i + j < len then i + j else i + j - len
  }

  /** Rotating left i times brings entry Home(i, j) to index j. */
  lemma RotateIndex<T>(s: seq<T>, i: nat, j: nat)
    requires i <= |s| && j < |s|
    ensures Home(i, j, |s|) < |s| && Rotate(s, i)[j] == s[Home(i, j, |s|)]
  {
    if i + j >= |s| {
      assert Rotate(s, i)[j] == s[..i][j - (|s| - i)];
    }
  }

  /** One more rotate_left(1) of s rotated i times is s rotated i + 1 times. */
  lemma RotateOnce<T>(s: seq<T>, i: nat)
    requires i < |s|
    ensures var r := Rotate(s, i); r[1..] + [r[0]] == Rotate(s, i + 1)
  {
    var r := Rotate(s, i);
    assert r[0] == s[i];
    assert s[i..][1..] == s[i + 1..];
    assert s[..i + 1] == s[..i] + [s[i]];
  }

  /** s read backwards. */
  function Reverse(s: string): (r: string)
    ensures |r| == |s| && forall k :: 0 <= k < |s| ==> r[k] == s[|s| - 1 - k]
  {
    if s == [] then [] else Reverse(s[1..]) + [s[0]]
  }

  function Min(a: nat, b: nat): nat
  {
    if a <= b then a else b
  }

  /**
   * The check get_match_mask makes at one alignment: the first |w| characters
   * of the rotated line (all of them, if the line is shorter) read w forwards
   * or backwards.
   */
  predicate Fits(chars: string, w: string)
    ensures Fits(chars, w) ==> |w| <= |chars|
  {
    var window := chars[..Min(|w|, |chars|)];
    window == w || Reverse(window) == w
  }

  /** A check fits exactly when the word is no longer than the line and the line begins with it, or with it reversed. */
  lemma FitsMeans(chars: string, w: string)
    ensures Fits(chars, w) <==> |w| <= |chars| && (chars[..|w|] == w || Reverse(chars[..|w|]) == w)
  {
  }

  /** How far round from start s, in a ring of len characters, index p lies. */
  function Offset(p: nat, s: nat, len: nat): nat
    requires p < len && s < len
  {
    if p >= s then p - s else p - s + len
  }

  /** Index p of base is covered by an occurrence of w that starts at one of the first n starts. */
  predicate CoveredBy(base: string, w: string, n: nat, p: nat)
    requires n <= |base| && p < |base|
  {
    n > 0 && (CoveredBy(base, w, n - 1, p) || (Fits(Rotate(base, n - 1), w) && Offset(p, n - 1, |base|) < |w|))
  }

  /** Index p of base is covered by an occurrence of one of the words ws. */
  predicate CoveredByAny(base: string, ws: seq<string>, p: nat)
    requires p < |base|
  {
    |ws| > 0 && (CoveredByAny(base, ws[..|ws| - 1], p) || CoveredBy(base, ws[|ws| - 1], |base|, p))
  }

  /** The mask get_match_mask returns for the extended line base. */
  function Mask(base: string, ws: seq<string>): (m: seq<bool>)
    ensures |m| == |base|
  {
    seq(|base|, p requires 0 <= p < |base| => CoveredByAny(base, ws, p))
  }

  /** The mask in the line's own alignment partway through word w: words ws done and the first i starts of w tried. */
  function Partial(base: string, ws: seq<string>, w: string, i: nat): (m: seq<bool>)
    requires i <= |base|
    ensures |m| == |base|
  {
    seq(|base|, p requires 0 <= p < |base| => CoveredByAny(base, ws, p) || CoveredBy(base, w, i, p))
  }

  /** m with its first k entries set. */
  function Marked(m: seq<bool>, k: nat): (r: seq<bool>)
    ensures |r| == |m|
  {
    seq(|m|, j requires 0 <= j < |m| => j < k || m[j])
  }

  /**
   * Trying start i of w on the rotated line and mask, and marking the
   * window when it fits, gives the mask with start i tried.
   */
  lemma MarkStep(base: string, ws: seq<string>, w: string, i: nat, m: seq<bool>)
    requires i < |base| && m == Rotate(Partial(base, ws, w, i), i)
    ensures var take := Min(|w|, |base|);
            var m' := if Fits(Rotate(base, i), w) then Marked(m, take) else m;
            m' == Rotate(Partial(base, ws, w, i + 1), i)
  {
    var len := |base|;
    var take := Min(|w|, len);
    var m' := if Fits(Rotate(base, i), w) then Marked(m, take) else m;
    var after := Rotate(Partial(base, ws, w, i + 1), i);
    forall j | 0 <= j < len
      ensures m'[j] == after[j]
    {
      var p := Home(i, j, len);
      RotateIndex(Partial(base, ws, w, i), i, j);
      RotateIndex(Partial(base, ws, w, i + 1), i, j);
      assert Offset(p, i, len) == j;
    }
  }

  /** Marks the first k entries of mask, as the source's iter_mut().take(k) loop does. */
  method MarkFirst(mask: seq<bool>, k: nat) returns (marked: seq<bool>)
    ensures marked == Marked(mask, k)
  {
    marked := mask;
    var j := 0;
    while j < Min(k, |mask|)
      invariant j <= Min(k, |mask|) && |marked| == |mask|
      invariant forall q :: 0 <= q < |mask| ==> marked[q] == (q < j || mask[q])
    {
      marked := marked[j := true];
      j := j + 1;
    }
  }

  /**
   * get_match_mask: the characters of line (and of the sentinel, in linear
   * mode) covered by some occurrence of a word, forwards or backwards.
   */
  method MatchMask(line: string, words: seq<string>, ring: bool) returns (mask: seq<bool>)
    ensures |mask| == if ring then |line| else |line| + 1
    ensures mask == Mask(Extended(line, ring), words)
  {
    mask := seq(|line|, _ => false);
    var chars := line;
    if !ring {
      chars := chars + ['$'];
      mask := mask + [false];
    }
    for wi := 0 to |words|
      invariant mask == Mask(chars, words[..wi])
    {
      assert words[..wi + 1][..wi] == words[..wi];
      mask := PassWord(chars, words[..wi], words[wi], mask);
    }
    assert words[..|words|] == words;
  }

  /**
   * One word's pass over the line: at each of the |base| rotations, mark the
   * window if the word reads forwards or backwards there, then rotate the
   * characters and the mask together by one.
   */
  method PassWord(base: string, done: seq<string>, word: string, mask0: seq<bool>) returns (mask: seq<bool>)
    requires mask0 == Mask(base, done)
    ensures mask == Mask(base, done + [word])
  {
    var chars := base;
    mask := mask0;
    assert mask == Rotate(Partial(base, done, word, 0), 0);
    for i := 0 to |chars|
      invariant |chars| == |base|
      invariant chars == Rotate(base, i) && mask == Rotate(Partial(base, done, word, i), i)
    {
      MarkStep(base, done, word, i, mask);
      var take := Min(|word|, |chars|);
      if chars[..take] == word {
        mask := MarkFirst(mask, take);
      } else if Reverse(chars[..take]) == word {
        mask := MarkFirst(mask, take);
      }
      RotateOnce(Partial(base, done, word, i + 1), i);
      RotateOnce(base, i);
      mask := mask[1..] + [mask[0]];
      chars := chars[1..] + [chars[0]];
    }
    assert Rotate(base, |base|) == base;
    assert (done + [word])[..|done|] == done;
    assert Partial(base, done, word, |base|) == Mask(base, done + [word]);
  }

  /** What a mask entry means: some word, read forwards or backwards from some start, covers that index. */
  lemma MaskMeans(base: string, ws: seq<string>, p: nat)
    requires p < |base|
    ensures Mask(base, ws)[p] <==>
            exists j, s :: 0 <= j < |ws| && 0 <= s < |base| && Fits(Rotate(base, s), ws[j]) && Offset(p, s, |base|) < |ws[j]|
  {
    assert Mask(base, ws)[p] == CoveredByAny(base, ws, p);
    AnyMeans(base, ws, p);
    if CoveredByAny(base, ws, p) {
      var j: int, s: nat :| 0 <= j < |ws| && Hit(base, ws[j], s, p);
      assert 0 <= s < |base| && Fits(Rotate(base, s), ws[j]) && Offset(p, s, |base|) < |ws[j]|;
    } else {
      forall j, s | 0 <= j < |ws| && 0 <= s < |base|
        ensures !(Fits(Rotate(base, s), ws[j]) && Offset(p, s, |base|) < |ws[j]|)
      {
        assert !Hit(base, ws[j], s, p);
      }
    }
  }

  /** The occurrence of w at start s covers index p. */
  predicate Hit(base: string, w: string, s: nat, p: nat)
    requires p < |base|
  {
    s < |base| && Fits(Rotate(base, s), w) && Offset(p, s, |base|) < |w|
  }

  /** CoveredByAny is "some word has an occurrence covering p". */
  lemma {:induction false} AnyMeans(base: string, ws: seq<string>, p: nat)
    requires p < |base|
    ensures CoveredByAny(base, ws, p) <==> exists j: int, s: nat :: 0 <= j < |ws| && Hit(base, ws[j], s, p)
    decreases |ws|
  {
    if |ws| > 0 {
      var front, w := ws[..|ws| - 1], ws[|ws| - 1];
      AnyMeans(base, front, p);
      CoveredByMeans(base, w, |base|, p);
      if CoveredByAny(base, ws, p) {
        if !CoveredByAny(base, front, p) {
          var s: nat :| s < |base| && Hit(base, w, s, p);
          assert ws[|ws| - 1] == w;
        } else {
          var j: int, s: nat :| 0 <= j < |front| && Hit(base, front[j], s, p);
          assert ws[j] == front[j];
        }
      } else {
        forall j, s | 0 <= j < |ws|
          ensures !Hit(base, ws[j], s, p)
        {
          if j < |front| {
            assert ws[j] == front[j];
          }
        }
      }
    }
  }

  /** CoveredBy is "some start below n fits and covers p". */
  lemma {:induction false} CoveredByMeans(base: string, w: string, n: nat, p: nat)
    requires n <= |base| && p < |base|
    ensures CoveredBy(base, w, n, p) <==> exists s: nat :: s < n && Hit(base, w, s, p)
  {
    if n > 0 {
      CoveredByMeans(base, w, n - 1, p);
      assert CoveredBy(base, w, n, p) == (CoveredBy(base, w, n - 1, p) || Hit(base, w, n - 1, p));
    }
  }

  /** Trying one more word only sets mask entries: marks are never taken back. */
  lemma MaskGrows(base: string, ws: seq<string>, w: string, p: nat)
    requires p < |base| && Mask(base, ws)[p]
    ensures Mask(base, ws + [w])[p]
  {
    assert (ws + [w])[..|ws|] == ws;
  }

  /**
   * In linear mode a word without '$' only matches inside the line: the
   * sentinel stops a match from running round the end.
   */
  lemma LinearMatchesInLine(line: string, w: string, s: nat)
    requires '$' !in w && s <= |line| && |w| >= 1 && Fits(Rotate(line + "$", s), w)
    ensures s + |w| <= |line|
  {
    if s + |w| > |line| {
      SentinelInWindow(line, w, s);
    }
  }

  /** A window that fits and reaches the sentinel has '$' in its word. */
  lemma SentinelInWindow(line: string, w: string, s: nat)
    requires s <= |line| < s + |w| && Fits(Rotate(line + "$", s), w)
    ensures '$' in w
  {
    var base := line + "$";
    FitsMeans(Rotate(base, s), w);
    var j := |line| - s;
    RotateIndex(base, s, j);
    var window := Rotate(base, s)[..|w|];
    assert window[j] == '$';
    if window == w {
      assert w[j] == '$';
    } else {
      assert w[|w| - 1 - j] == '$';
    }
  }

  /** With no '$' in any word, the sentinel's own mask entry stays unset. */
  lemma SentinelUnmarked(line: string, ws: seq<string>)
    requires forall j :: 0 <= j < |ws| ==> '$' !in ws[j]
    ensures !Mask(line + "$", ws)[|line|]
  {
    var base := line + "$";
    MaskMeans(base, ws, |line|);
    if Mask(base, ws)[|line|] {
      var j, s :| 0 <= j < |ws| && 0 <= s < |base| && Fits(Rotate(base, s), ws[j]) && Offset(|line|, s, |base|) < |ws[j]|;
      LinearMatchesInLine(line, ws[j], s);
    }
  }

  /** The number of set entries of a mask: iter().filter().count(). */
  function CountTrue(m: seq<bool>): (n: nat)
    ensures n <= |m|
  {
    if m == [] then 0 else CountTrue(m[..|m| - 1]) + (if m[|m| - 1] then 1 else 0)
  }

  /** Counting the set entries of two masks end to end adds their counts. */
  lemma {:induction false} CountTrueAppend(a: seq<bool>, b: seq<bool>)
    ensures CountTrue(a + b) == CountTrue(a) + CountTrue(b)
    decreases |b|
  {
    if b != [] {
      assert (a + b)[..|a + b| - 1] == a + b[..|b| - 1];
      CountTrueAppend(a, b[..|b| - 1]);
    } else {
      assert a + b == a;
    }
  }

  /** In linear mode, with no '$' in any word, the count of a mask is the count over the line's own characters. */
  lemma SentinelNotCounted(line: string, ws: seq<string>)
    requires forall j :: 0 <= j < |ws| ==> '$' !in ws[j]
    ensures CountTrue(Mask(line + "$", ws)) == CountTrue(Mask(line + "$", ws)[..|line|])
  {
    var m := Mask(line + "$", ws);
    SentinelUnmarked(line, ws);
    assert m == m[..|line|] + [m[|line|]];
  }

  /** Whether the input has a first line with a ':' in it, from which the words are read. */
  predicate HasWords(input: string)
  {
    |Lines(input)| >= 1 && |Split(Lines(input)[0], ":")| >= 2
  }

  /** The words: the comma-separated list after the first ':' of the first line. */
  function WordsOf(input: string): seq<string>
    requires HasWords(input)
  {
    Split(Split(Lines(input)[0], ":")[1], ",")
  }

  /**
   * str::matches(w).count(): the occurrences of w in s found left to right,
   * each search resuming after the previous occurrence. The empty word
   * matches at each of the |s| + 1 boundaries.
   */
  function Occurrences(s: string, w: string): (r: nat)
    ensures |w| >= 1 ==> r <= |s|
    decreases |s|
  {
    if |w| == 0 then |s| + 1
    else if |s| < |w| then 0
    else if s[..|w|] == w then 1 + Occurrences(s[|w|..], w)
    else Occurrences(s[1..], w)
  }

  /** Whether the stretch of s starting at i spells w. */
  predicate SpelledAt(s: string, w: string, i: int)
  {
    0 <= i && i + |w| <= |s| && s[i..i + |w|] == w
  }

  /** A non-empty word occurs in s when, and only when, some stretch of s spells it. */
  lemma {:induction false} OccursWhenSpelled(s: string, w: string)
    requires |w| >= 1
    ensures Occurrences(s, w) >= 1 <==> exists i :: SpelledAt(s, w, i)
    decreases |s|
  {
    if |s| >= |w| && s[..|w|] != w {
      OccursWhenSpelled(s[1..], w);
      if exists i :: SpelledAt(s[1..], w, i) {
        var i :| SpelledAt(s[1..], w, i);
        SpelledFurther(s, w, i);
      }
      if exists i :: SpelledAt(s, w, i) {
        var i :| SpelledAt(s, w, i);
        SpelledAtStart(s, w);
        SpelledFurther(s, w, i - 1);
      }
    } else if |s| >= |w| {
      assert SpelledAt(s, w, 0);
    }
  }

  /** The stretch at 0 spells w exactly when s starts with w. */
  lemma SpelledAtStart(s: string, w: string)
    requires |w| <= |s|
    ensures SpelledAt(s, w, 0) <==> s[..|w|] == w
  {
    assert s[0..|w|] == s[..|w|];
  }

  /** A stretch of s[1..] at i is the stretch of s at i + 1. */
  lemma SpelledFurther(s: string, w: string, i: nat)
    requires |s| >= 1
    ensures SpelledAt(s[1..], w, i) <==> SpelledAt(s, w, i + 1)
  {
    if i + |w| <= |s[1..]| {
      assert s[1..][i..i + |w|] == s[i + 1..i + 1 + |w|];
    }
  }

  /** Occurrences do not overlap: together they take up no more than the whole of s. */
  lemma {:induction false} OccurrencesFit(s: string, w: string)
    requires |w| >= 1
    ensures Occurrences(s, w) * |w| <= |s|
    decreases |s|
  {
    if |s| >= |w| {
      if s[..|w|] == w {
        OccurrencesFit(s[|w|..], w);
        assert (1 + Occurrences(s[|w|..], w)) * |w| == |w| + Occurrences(s[|w|..], w) * |w|;
      } else {
        OccurrencesFit(s[1..], w);
      }
    }
  }

  /** The part 1 count: occurrences of each word in the sentence, added up. */
  function AllOccurrences(sentence: string, ws: seq<string>): nat
  {
    if ws == [] then 0 else AllOccurrences(sentence, ws[..|ws| - 1]) + Occurrences(sentence, ws[|ws| - 1])
  }

  /** Part 1: how many times the words occur in the sentence on the third line. */
  method Part1(input: string) returns (count: nat)
    requires HasWords(input) && |Lines(input)| >= 3
    ensures count == AllOccurrences(Lines(input)[2], WordsOf(input))
  {
    var words := WordsOf(input);
    var sentence := Lines(input)[2];
    count := 0;
    for i := 0 to |words|
      invariant count == AllOccurrences(sentence, words[..i])
    {
      assert words[..i + 1][..i] == words[..i];
      count := count + Occurrences(sentence, words[i]);
    }
    assert words[..|words|] == words;
  }

  /** The lines after the words and the blank line. */
  function Body(input: string): seq<string>
  {
    var lines := Lines(input);
    if |lines| >= 2 then lines[2..] else []
  }

  /** The part 2 count: the characters marked in linear mode, line by line, added up. */
  function MarkedCount(sentences: seq<string>, ws: seq<string>): nat
  {
    if sentences == [] then 0
    else MarkedCount(sentences[..|sentences| - 1], ws) + CountTrue(Mask(sentences[|sentences| - 1] + "$", ws))
  }

  /** Part 2: the marked characters of every line of the body. */
  method Part2(input: string) returns (count: nat)
    requires HasWords(input)
    ensures count == MarkedCount(Body(input), WordsOf(input))
  {
    var words := WordsOf(input);
    var sentences := Body(input);
    count := 0;
    for i := 0 to |sentences|
      invariant count == MarkedCount(sentences[..i], words)
    {
      assert sentences[..i + 1][..i] == sentences[..i];
      var mask := MatchMask(sentences[i], words, false);
      count := count + CountTrue(mask);
    }
    assert sentences[..|sentences|] == sentences;
  }

  /** A grid of at least one line, every line as wide as the first: what part 3 indexes without panicking. */
  predicate Rectangular(grid: seq<string>)
  {
    |grid| >= 1 && forall y :: 0 <= y < |grid| ==> |grid[y]| == |grid[0]|
  }

  /** Column x of the grid, read downwards. */
  function Column(grid: seq<string>, x: nat): (col: string)
    requires Rectangular(grid) && x < |grid[0]|
    ensures |col| == |grid| && forall y :: 0 <= y < |grid| ==> col[y] == grid[y][x]
  {
    seq(|grid|, y requires 0 <= y < |grid| => grid[y][x])
  }

  /**
   * The part 3 marks with the first n columns searched: a cell is marked
   * when its row marks it in ring mode or, for one of those columns, its
   * column marks it in linear mode.
   */
  function Runes(grid: seq<string>, ws: seq<string>, n: nat): (m: seq<seq<bool>>)
    requires Rectangular(grid)
    ensures |m| == |grid| && forall y :: 0 <= y < |grid| ==> |m[y]| == |grid[0]|
  {
    seq(|grid|, y requires 0 <= y < |grid| =>
      seq(|grid[0]|, x requires 0 <= x < |grid[0]| =>
        Mask(grid[y], ws)[x] || (x < n && Mask(Column(grid, x) + "$", ws)[y])))
  }

  /** The set cells of a grid of marks: iter().flatten().filter().count(). */
  function CountGrid(m: seq<seq<bool>>): nat
  {
    if m == [] then 0 else CountGrid(m[..|m| - 1]) + CountTrue(m[|m| - 1])
  }

  /** Part 3: the cells of the grid that some word covers, along a row read round or down a column. */
  method Part3(input: string) returns (count: nat)
    requires HasWords(input) && Rectangular(Body(input))
    ensures count == CountGrid(Runes(Body(input), WordsOf(input), |Body(input)[0]|))
  {
    var words := WordsOf(input);
    var grid := Body(input);
    var mask := RowPass(grid, words);
    for x := 0 to |grid[0]|
      invariant mask == Runes(grid, words, x)
    {
      var col := ColumnOf(grid, x);
      var rune := MatchMask(col, words, false);
      mask := MarkColumn(grid, words, x, mask, rune);
    }
    count := CountGrid(mask);
  }

  /** The bool matrix after the rows: each row's ring-mode mask copied in. */
  method RowPass(grid: seq<string>, words: seq<string>) returns (mask: seq<seq<bool>>)
    requires Rectangular(grid)
    ensures mask == Runes(grid, words, 0)
  {
    var width := |grid[0]|;
    mask := seq(|grid|, _ => seq(width, _ => false));
    for i := 0 to |grid|
      invariant |mask| == |grid|
      invariant forall y :: 0 <= y < i ==> mask[y] == Mask(grid[y], words)
      invariant forall y :: i <= y < |grid| ==> |mask[y]| == width
    {
      var rune := MatchMask(grid[i], words, true);
      mask := CopyRow(mask, i, rune);
    }
    forall y | 0 <= y < |grid|
      ensures mask[y] == Runes(grid, words, 0)[y]
    {
      assert |mask[y]| == |Runes(grid, words, 0)[y]|;
    }
  }

  /** Copies a mask into row i of the matrix entry by entry: mask[i][j] = x. */
  method CopyRow(mask: seq<seq<bool>>, i: nat, rune: seq<bool>) returns (copied: seq<seq<bool>>)
    requires i < |mask| && |rune| == |mask[i]|
    ensures copied == mask[i := rune]
  {
    copied := mask;
    for j := 0 to |rune|
      invariant |copied| == |mask| && |copied[i]| == |rune|
      invariant copied[i][..j] == rune[..j] && copied[i][j..] == mask[i][j..]
      invariant forall y :: 0 <= y < |mask| && y != i ==> copied[y] == mask[y]
    {
      copied := copied[i := copied[i][j := rune[j]]];
    }
    assert copied[i] == copied[i][..|rune|];
    assert copied[i] == rune;
  }

  /** Column x of the grid collected character by character: nth(x).unwrap() of each line. */
  method ColumnOf(grid: seq<string>, x: nat) returns (col: string)
    requires Rectangular(grid) && x < |grid[0]|
    ensures col == Column(grid, x)
  {
    col := "";
    for y := 0 to |grid|
      invariant col == Column(grid, x)[..y]
    {
      col := col + [grid[y][x]];
    }
  }

  /** ORs the first |grid| entries of column x's linear-mode mask into column x of the matrix. */
  method MarkColumn(grid: seq<string>, words: seq<string>, x: nat, mask: seq<seq<bool>>, rune: seq<bool>)
    returns (marked: seq<seq<bool>>)
    requires Rectangular(grid) && x < |grid[0]|
    requires mask == Runes(grid, words, x) && rune == Mask(Column(grid, x) + "$", words)
    ensures marked == Runes(grid, words, x + 1)
  {
    marked := mask;
    for y := 0 to |grid|
      invariant |marked| == |grid|
      invariant forall r :: 0 <= r < |grid| ==> |marked[r]| == |grid[0]|
      invariant forall r :: 0 <= r < y ==> marked[r] == Runes(grid, words, x + 1)[r]
      invariant forall r :: y <= r < |grid| ==> marked[r] == mask[r]
    {
      if rune[y] {
        marked := marked[y := marked[y][x := true]];
      }
      assert marked[y] == Runes(grid, words, x + 1)[y];
    }
  }
}
