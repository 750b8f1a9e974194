/**
 * The clapping dance of day 5 (src/day5.rs): four columns of dancers, each
 * dancer a number. In each round the head of the dancing column leaves it,
 * claps its way along the next column (down one side, back up the other)
 * and joins that column where its count of claps runs out; then every
 * column's head is shouted, column by column.
 */
module Day5 {
  import opened Wrappers
  import opened Text
  import opened Numbers

  /** The four columns, head first. */
  type Columns = seq<seq<nat>>

  /**
   * dance's choice of where the clapper joins a column of len dancers:
   * full rounds of 2 * len claps are dropped, the first len claps reach
   * down the left side and the next ones come back up the right side.
   */
  function InsertIndex(clapper: nat, len: nat): (i: nat)
    requires len >= 1
    ensures i <= len
    ensures clapper % (2 * len) == 0 || clapper % (2 * len) > len ==> i >= 1
  {
    var k := clapper % (2 * len);
    if k == 0 then 1
    else if k <= len then k - 1
    else len - (k - len - 1)
  }

  datatype Side = Left | Right

  /**
   * Where the clapper stands at its n-th clap, walking along a column of
   * len dancers: beside dancer 1 on the left, down to dancer len, across
   * to the right side, back up to dancer 1, and round again.
   */
  function Spot(n: nat, len: nat): (r: (Side, nat))
    requires n >= 1 && len >= 1
    ensures 1 <= r.1 <= len
  {
    if n == 1 then (Left, 1)
    else
      var (side, p) := Spot(n - 1, len);
      if side == Left && p < len then (Left, p + 1)
      else if side == Left then (Right, len)
      else if p > 1 then (Right, p - 1)
      else (Left, 1)
  }

  /** The clapper joins in front of the dancer it stands beside on the left side, behind it on the right side. */
  function JoinAt(spot: (Side, nat)): nat
    requires spot.1 >= 1
  {
    if spot.0 == Left then spot.1 - 1 else spot.1
  }

  /** In the first round the clapper walks straight down and straight back up. */
  lemma {:induction false} SpotFirstRound(n: nat, len: nat)
    requires len >= 1 && 1 <= n <= 2 * len
    ensures Spot(n, len) == if n <= len then (Left, n) else (Right, 2 * len - n + 1)
    decreases n
  {
    if n > 1 {
      SpotFirstRound(n - 1, len);
    }
  }

  /** After 2 * len claps the clapper is back where it started. */
  lemma {:induction false} SpotRoundAgain(n: nat, len: nat)
    requires n >= 1 && len >= 1
    ensures Spot(n + 2 * len, len) == Spot(n, len)
    decreases n
  {
    if n == 1 {
      SpotFirstRound(2 * len, len);
    } else {
      SpotRoundAgain(n - 1, len);
    }
  }

  /** So only the claps of the last, unfinished round count. */
  lemma {:induction false} SpotLastRound(n: nat, len: nat)
    requires n >= 1 && len >= 1
    ensures Spot(n, len) == Spot((n - 1) % (2 * len) + 1, len)
    decreases n
  {
    var m := 2 * len;
    if n > m {
      var b := n - m - 1;
      assert (n - 1) % m == b % m by {
        assert b == (b / m) * m + b % m;
        assert n - 1 == (b / m + 1) * m + b % m;
        ModUnique(n - 1, m, b / m + 1, b % m);
      }
      SpotLastRound(b + 1, len);
      SpotRoundAgain(b + 1, len);
    } else {
      assert (n - 1) % m == n - 1 by {
        ModUnique(n - 1, m, 0, n - 1);
      }
    }
  }

  /**
   * The index dance computes is where the clapper stands after clapping
   * its number of times; a clapper numbered 0 joins where a full round of
   * claps would have put it.
   */
  lemma ClapsPlaceClapper(clapper: nat, len: nat)
    requires len >= 1
    ensures clapper >= 1 ==> InsertIndex(clapper, len) == JoinAt(Spot(clapper, len))
    ensures clapper == 0 ==> InsertIndex(clapper, len) == JoinAt(Spot(2 * len, len))
  {
    var k := clapper % (2 * len);
    if clapper == 0 {
      SpotFirstRound(2 * len, len);
    } else {
      var m := (clapper - 1) % (2 * len) + 1;
      assert m == if k == 0 then 2 * len else k by {
        RoundRemainder(clapper, 2 * len);
      }
      assert Spot(clapper, len) == Spot(m, len) by {
        SpotLastRound(clapper, len);
      }
      SpotFirstRound(m, len);
      if k == 0 {
        assert InsertIndex(clapper, len) == 1;
        assert JoinAt(Spot(m, len)) == 1;
      } else if k <= len {
        assert InsertIndex(clapper, len) == k - 1;
        assert JoinAt(Spot(m, len)) == k - 1;
      } else {
        assert InsertIndex(clapper, len) == 2 * len - k + 1;
        assert JoinAt(Spot(m, len)) == 2 * len - k + 1;
      }
    }
  }

  /** Counting from 1 instead of 0 within rounds of m. */
  lemma RoundRemainder(a: nat, m: nat)
    requires a >= 1 && m >= 1
    ensures (a - 1) % m + 1 == if a % m == 0 then m else a % m
  {
    var q := a / m;
    assert a == q * m + a % m;
    if a % m == 0 {
      assert q >= 1;
      assert a - 1 == (q - 1) * m + (m - 1);
      ModUnique(a - 1, m, q - 1, m - 1);
    } else {
      ModUnique(a - 1, m, q, a % m - 1);
    }
  }

  /** The column after column c, going round the four: (c + 1) % 4. */
  function Next(c: nat): (d: nat)
    requires c < 4
    ensures d < 4 && d != c
  {
    if c == 3 then 0 else c + 1
  }

  /** Next is the source's (c + 1) % 4 on the four columns. */
  lemma NextWraps(c: nat)
    requires c < 4
    ensures Next(c) == (c + 1) % 4
  {
    if c == 3 {
      ModUnique(4, 4, 1, 0);
    } else {
      ModUnique(c + 1, 4, 0, c + 1);
    }
  }

  /** s with x put in at index i. */
  function Insert(s: seq<nat>, i: nat, x: nat): (r: seq<nat>)
    requires i <= |s|
    ensures |r| == |s| + 1 && r[i] == x && r[..i] + r[i + 1..] == s
  {
    s[..i] + [x] + s[i..]
  }

  /** Every column has a head. */
  predicate Heads(cols: Columns)
  {
    |cols| == 4 && |cols[0]| >= 1 && |cols[1]| >= 1 && |cols[2]| >= 1 && |cols[3]| >= 1
  }

  /** All dancers of the four columns. */
  function Clappers(cols: Columns): multiset<nat>
    requires |cols| == 4
  {
    multiset(cols[0]) + multiset(cols[1]) + multiset(cols[2]) + multiset(cols[3])
  }

  /**
   * One dance with column c dancing: its head leaves it and joins the next
   * column at InsertIndex.
   */
  function Step(cols: Columns, c: nat): (r: Columns)
    requires |cols| == 4 && c < 4 && |cols[c]| >= 1 && |cols[Next(c)]| >= 1
    ensures |r| == 4 && |r[c]| == |cols[c]| - 1 && |r[Next(c)]| == |cols[Next(c)]| + 1
  {
    var d := Next(c);
    var clapper := cols[c][0];
    cols[c := cols[c][1..]][d := Insert(cols[d], InsertIndex(clapper, |cols[d]|), clapper)]
  }

  /**
   * What a dance does: the dancing column loses its head, which is found
   * in the next column at InsertIndex, with that column otherwise as it
   * was; the other two columns stay as they are.
   */
  lemma StepMoves(cols: Columns, c: nat)
    requires |cols| == 4 && c < 4 && |cols[c]| >= 1 && |cols[Next(c)]| >= 1
    ensures var r := Step(cols, c); |r| == 4 && r[c] == cols[c][1..]
    ensures var r, d := Step(cols, c), Next(c); var i := InsertIndex(cols[c][0], |cols[d]|);
            |r[d]| == |cols[d]| + 1 && r[d][i] == cols[c][0] && r[d][..i] + r[d][i + 1..] == cols[d]
    ensures forall j :: 0 <= j < 4 && j != c && j != Next(c) ==> Step(cols, c)[j] == cols[j]
  {
  }

  /** A dance moves one dancer: no dancer is lost or made. */
  lemma StepKeepsClappers(cols: Columns, c: nat)
    requires |cols| == 4 && c < 4 && |cols[c]| >= 1 && |cols[Next(c)]| >= 1
    ensures Clappers(Step(cols, c)) == Clappers(cols)
  {
    var r := Step(cols, c);
    var d := Next(c);
    var i := InsertIndex(cols[c][0], |cols[d]|);
    StepMoves(cols, c);
    assert cols[c] == [cols[c][0]] + cols[c][1..];
    assert multiset(cols[c]) == multiset{cols[c][0]} + multiset(r[c]);
    assert r[d] == r[d][..i] + [cols[c][0]] + r[d][i + 1..];
    assert multiset(r[d]) == multiset(cols[d]) + multiset{cols[c][0]};
  }

  /** The shout: the decimal heads of the four columns, in column order. */
  function Shout(cols: Columns): (s: string)
    requires Heads(cols)
    ensures |s| >= 4
  {
    ShowNat(cols[0][0]) + ShowNat(cols[1][0]) + ShowNat(cols[2][0]) + ShowNat(cols[3][0])
  }

  /** A shout is a decimal number, so the source's parse of it never fails. */
  lemma ShoutIsNumber(cols: Columns)
    requires Heads(cols)
    ensures AllDigits(Shout(cols)) && ParseNat(Shout(cols)) == Some(DigitsValue(Shout(cols)))
  {
    var s := Shout(cols);
    forall i | 0 <= i < |s|
      ensures IsDigit(s[i])
    {
      var a, b, c := ShowNat(cols[0][0]), ShowNat(cols[1][0]), ShowNat(cols[2][0]);
      if i < |a| {
        assert s[i] == a[i];
      } else if i < |a| + |b| {
        assert s[i] == b[i - |a|];
      } else if i < |a| + |b| + |c| {
        assert s[i] == c[i - |a| - |b|];
      } else {
        assert s[i] == ShowNat(cols[3][0])[i - |a| - |b| - |c|];
      }
    }
  }

  /**
   * The size of column i after dances that started from four columns of
   * n and have now reached column c: the first column is one short and
   * the dancing column one over, until the dance comes round to the first
   * column again.
   */
  function Size(i: nat, c: nat, n: nat): nat
    requires n >= 1
  {
    if c == 0 || (i != 0 && i != c) then n
    else if i == 0 then n - 1
    else n + 1
  }

  /** Columns on their way through the dances of the parts, from four columns of n >= 2 dancers. */
  predicate Rounds(cols: Columns, c: nat, n: nat)
  {
    && |cols| == 4 && c < 4 && n >= 2
    && |cols[0]| == Size(0, c, n) && |cols[1]| == Size(1, c, n)
    && |cols[2]| == Size(2, c, n) && |cols[3]| == Size(3, c, n)
  }

  /** Dancing keeps the sizes, and with them everything dance and the shout need. */
  lemma StepKeepsRounds(cols: Columns, c: nat, n: nat)
    requires Rounds(cols, c, n)
    ensures |cols[c]| >= 2 && Heads(cols)
    ensures Rounds(Step(cols, c), Next(c), n) && Heads(Step(cols, c))
  {
    var r := Step(cols, c);
    var d := Next(c);
    StepMoves(cols, c);
    forall i | 0 <= i < 4
      ensures |r[i]| == Size(i, d, n)
    {
      if i == c {
      } else if i == d {
      } else {
        assert r[i] == cols[i];
      }
    }
  }

  /**
   * The columns, and the column dancing next, after k dances from column c.
   */
  function Dances(cols: Columns, c: nat, n: nat, k: nat): (r: (Columns, nat))
    requires Rounds(cols, c, n)
    ensures Rounds(r.0, r.1, n)
  {
    if k == 0 then
      (cols, c)
    else
      var before := Dances(cols, c, n, k - 1);
      StepKeepsRounds(before.0, before.1, n);
      (Step(before.0, before.1), Next(before.1))
  }

  /** One dance more: the columns after k + 1 dances are one Step on from those after k. */
  lemma DancesNext(cols: Columns, c: nat, n: nat, k: nat, cols': Columns, c': nat)
    requires Rounds(cols, c, n)
    requires var before := Dances(cols, c, n, k);
             |before.0[before.1]| >= 1 && |before.0[Next(before.1)]| >= 1 &&
             cols' == Step(before.0, before.1) && c' == Next(before.1)
    ensures Dances(cols, c, n, k + 1) == (cols', c')
  {
  }

  /** The first four numbers of a line; None where the source's unwrap panics (fewer than four, or one that is no number). */
  function LineClappers(line: string): (r: Option<seq<nat>>)
    ensures r.Some? ==> |r.value| == 4
    ensures r.Some? <==> |Words(line)| >= 4 && forall i :: 0 <= i < 4 ==> ParseNat(Words(line)[i]).Some?
  {
    var words := Words(line);
    if |words| < 4 then None
    else match (ParseNat(words[0]), ParseNat(words[1]), ParseNat(words[2]), ParseNat(words[3]))
      case (Some(a), Some(b), Some(c), Some(d)) => Some([a, b, c, d])
      case _ => None
  }

  /** Every line of the input gives its four dancers. */
  predicate Readable(lines: seq<string>)
  {
    forall j :: 0 <= j < |lines| ==> LineClappers(lines[j]).Some?
  }

  /** Column i of the input: the i-th number of every line, from the first line down. */
  function Column(lines: seq<string>, i: nat): (r: seq<nat>)
    requires Readable(lines) && i < 4
    ensures |r| == |lines|
  {
    seq(|lines|, j requires 0 <= j < |lines| => LineClappers(lines[j]).value[i])
  }

  /** One line more puts one more dancer at the back of each column. */
  lemma ColumnGrows(lines: seq<string>, j: nat, i: nat)
    requires Readable(lines) && j < |lines| && i < 4
    ensures Readable(lines[..j]) && Readable(lines[..j + 1])
    ensures Column(lines[..j + 1], i) == Column(lines[..j], i) + [LineClappers(lines[j]).value[i]]
  {
    ReadablePrefix(lines, j);
    ReadablePrefix(lines, j + 1);
  }

  lemma ReadablePrefix(lines: seq<string>, j: nat)
    requires Readable(lines) && j <= |lines|
    ensures Readable(lines[..j])
  {
    forall k | 0 <= k < j
      ensures LineClappers(lines[..j][k]).Some?
    {
      assert lines[..j][k] == lines[k];
    }
  }

  /** The four columns of the input. */
  function ColumnsOf(input: string): (r: Columns)
    requires Readable(Lines(input))
    ensures |r| == 4 && forall i :: 0 <= i < 4 ==> |r[i]| == |Lines(input)|
  {
    var lines := Lines(input);
    [Column(lines, 0), Column(lines, 1), Column(lines, 2), Column(lines, 3)]
  }

  /** Day5World: the four columns and the column that dances next. */
  class World {
    var columns: Columns
    var current: nat

    ghost predicate Valid()
      reads this
    {
      |columns| == 4 && current < 4
    }

    /** from_str: line by line, the i-th number of the line goes to the back of column i. */
    constructor Parse(input: string)
      requires Readable(Lines(input))
      ensures Valid() && columns == ColumnsOf(input) && current == 0
    {
      var lines := Lines(input);
      var cols: Columns := [[], [], [], []];
      var j := 0;
      while j < |lines|
        invariant 0 <= j <= |lines| && |cols| == 4
        invariant forall i :: 0 <= i < 4 ==> cols[i] == Column(lines[..j], i)
      {
        var clappers := LineClappers(lines[j]).value;
        var i := 0;
        while i < 4
          invariant 0 <= i <= 4 && |cols| == 4
          invariant forall k :: 0 <= k < i ==> cols[k] == Column(lines[..j + 1], k)
          invariant forall k :: i <= k < 4 ==> cols[k] == Column(lines[..j], k)
        {
          ColumnGrows(lines, j, i);
          cols := cols[i := cols[i] + [clappers[i]]];
          i := i + 1;
        }
        j := j + 1;
      }
      assert lines[..j] == lines;
      columns := cols;
      current := 0;
    }

    /**
     * dance: the head of the current column leaves it, the next column
     * becomes the current one and takes the clapper in at the index its
     * claps reach; the result is the shout that follows. The source
     * panics on an empty current column and divides by zero on an empty
     * next column, and the shout needs a head in every column.
     */
    method Dance() returns (shouted: string)
      requires Valid() && |columns[current]| >= 2 && Heads(columns)
      modifies this
      ensures Valid() && Heads(columns)
      ensures columns == Step(old(columns), old(current)) && current == Next(old(current))
      ensures shouted == Shout(columns)
    {
      var clapper := columns[current][0];
      columns := columns[current := columns[current][1..]];
      current := (current + 1) % 4;
      assert current == Next(old(current));
      var len := |columns[current]|;
      var k := clapper % (len * 2);
      var at: nat;
      if k == 0 {
        at := 1;
      } else if k <= len {
        at := k - 1;
      } else {
        at := len - (k - len - 1);
      }
      assert at == InsertIndex(clapper, len);
      columns := columns[current := Insert(columns[current], at, clapper)];
      shouted := Shout(columns);
    }
  }

  /** The world has danced k dances from the columns cols of n dancers each. */
  ghost predicate Danced(world: World, cols: Columns, n: nat, k: nat)
    reads world
  {
    Rounds(cols, 0, n) && world.Valid() && (world.columns, world.current) == Dances(cols, 0, n, k)
  }

  /** The shout that ends dance r, from four columns of n dancers each. */
  function ShoutAt(cols: Columns, n: nat, r: nat): string
    requires Rounds(cols, 0, n)
  {
    var after := Dances(cols, 0, n, r);
    StepKeepsRounds(after.0, after.1, n);
    Shout(after.0)
  }

  /** One dance of the parts' loops, with the shout it ends with. */
  method DanceAgain(world: World, ghost cols: Columns, ghost n: nat, ghost k: nat) returns (shouted: string)
    requires Danced(world, cols, n, k)
    modifies world
    ensures Danced(world, cols, n, k + 1) && Heads(world.columns)
    ensures shouted == Shout(world.columns) == ShoutAt(cols, n, k + 1)
  {
    StepKeepsRounds(world.columns, world.current, n);
    shouted := world.Dance();
    DancesNext(cols, 0, n, k, world.columns, world.current);
  }

  /** Part 1: the shout after ten dances. With fewer than two lines a column runs dry and the source panics. */
  method Part1(input: string) returns (answer: string)
    requires Readable(Lines(input)) && |Lines(input)| >= 2
    ensures answer == ShoutAt(ColumnsOf(input), |Lines(input)|, 10)
  {
    var world := new World.Parse(input);
    ghost var cols, n := world.columns, |Lines(input)|;
    answer := "";
    for i := 0 to 10
      invariant Danced(world, cols, n, i)
      invariant i > 0 ==> answer == ShoutAt(cols, n, i)
    {
      answer := DanceAgain(world, cols, n, i);
    }
  }

  /** The shouts of the first k dances, one per dance. */
  function Shouts(cols: Columns, n: nat, k: nat): (r: seq<string>)
    requires Rounds(cols, 0, n)
    ensures |r| == k
  {
    if k == 0 then [] else Shouts(cols, n, k - 1) + [ShoutAt(cols, n, k)]
  }

  /** Entry i of the shouts is the shout that ends dance i + 1, however many dances are listed. */
  lemma {:induction false} ShoutsAt(cols: Columns, n: nat, k: nat, i: nat)
    requires Rounds(cols, 0, n) && i < k
    ensures Shouts(cols, n, k)[i] == ShoutAt(cols, n, i + 1)
  {
    if i < k - 1 {
      ShoutsAt(cols, n, k - 1, i);
    }
  }

  /** The first h shouts of any longer list are the first h - 1 and the shout that ends dance h. */
  lemma ShoutsTake(cols: Columns, n: nat, k: nat, h: nat)
    requires Rounds(cols, 0, n) && 1 <= h <= k
    ensures Shouts(cols, n, k)[..h] == Shouts(cols, n, k)[..h - 1] + [ShoutAt(cols, n, h)]
  {
    var all := Shouts(cols, n, k);
    ShoutsAt(cols, n, k, h - 1);
    assert all[..h] == all[..h - 1] + [all[h - 1]];
  }

  /** The last shout of s is heard for the 2024th time. */
  predicate Repeated(s: seq<string>)
  {
    |s| >= 1 && multiset(s)[s[|s| - 1]] == 2024
  }

  /** The first length from r on at which the prefix of s of that length ends in a shout heard for the 2024th time. */
  function FirstRepeat(s: seq<string>, r: nat): (h: nat)
    requires 1 <= r <= |s| && Repeated(s)
    ensures r <= h <= |s| && Repeated(s[..h])
    ensures forall q :: r <= q < h ==> !Repeated(s[..q])
    decreases |s| - r
  {
    if Repeated(s[..r]) then r
    else
      assert r < |s| by {
        assert s[..|s|] == s;
      }
      FirstRepeat(s, r + 1)
  }

  /** No prefix of s of a length from 1 up to before h is repeated. */
  ghost predicate Quiet(s: seq<string>, h: nat)
  {
    forall q :: 1 <= q < h && q <= |s| ==> !Repeated(s[..q])
  }

  /** A prefix that is not repeated extends the quiet ones. */
  lemma QuietNext(s: seq<string>, h: nat)
    requires Quiet(s, h) && 1 <= h <= |s| && !Repeated(s[..h])
    ensures Quiet(s, h + 1)
  {
  }

  /** A length whose prefix is repeated, with none before it, is the first. */
  lemma FirstRepeatIs(s: seq<string>, h: nat)
    requires 1 <= h <= |s| && Repeated(s) && Repeated(s[..h]) && Quiet(s, h)
    ensures FirstRepeat(s, 1) == h
  {
  }

  /** The shouts of fewer dances begin the shouts of more. */
  lemma ShoutsPrefix(cols: Columns, n: nat, k: nat, m: nat)
    requires Rounds(cols, 0, n) && k <= m
    ensures Shouts(cols, n, m)[..k] == Shouts(cols, n, k)
  {
    forall i | 0 <= i < k
      ensures Shouts(cols, n, m)[i] == Shouts(cols, n, k)[i]
    {
      ShoutsAt(cols, n, m, i);
      ShoutsAt(cols, n, k, i);
    }
  }

  /** The first repeated round does not depend on which repeated round bounds the search. */
  lemma FirstRepeatAnyBound(cols: Columns, n: nat, b1: nat, b2: nat)
    requires Rounds(cols, 0, n) && b1 <= b2
    requires Repeated(Shouts(cols, n, b1)) && Repeated(Shouts(cols, n, b2))
    ensures FirstRepeat(Shouts(cols, n, b1), 1) == FirstRepeat(Shouts(cols, n, b2), 1)
  {
    ShoutsPrefix(cols, n, b1, b2);
    FirstRepeatPrefix(Shouts(cols, n, b1), Shouts(cols, n, b2));
  }

  /** A repeated list and a repeated longer list it begins have the same first repeat. */
  lemma FirstRepeatPrefix(s1: seq<string>, s2: seq<string>)
    requires Repeated(s1) && Repeated(s2) && |s1| <= |s2| && s2[..|s1|] == s1
    ensures FirstRepeat(s1, 1) == FirstRepeat(s2, 1)
  {
    var h := FirstRepeat(s1, 1);
    assert s2[..h] == s1[..h];
    forall q | 1 <= q < h && q <= |s2|
      ensures !Repeated(s2[..q])
    {
      assert s2[..q] == s1[..q];
    }
    FirstRepeatIs(s2, h);
  }

  /** counts holds how often each shout of s was heard. */
  ghost predicate Tally(counts: map<string, nat>, s: seq<string>)
  {
    forall x :: multiset(s)[x] == if x in counts then counts[x] else 0
  }

  /** The count of one more shout goes up by one, as entry().and_modify().or_insert() does it. */
  lemma TallyNext(counts: map<string, nat>, s: seq<string>, x: string, count: nat)
    requires Tally(counts, s) && count == if x in counts then counts[x] + 1 else 1
    ensures Tally(counts[x := count], s + [x])
    ensures Repeated(s + [x]) <==> count == 2024
  {
    assert multiset(s + [x]) == multiset(s) + multiset{x};
  }

  /** The number shouted at dance r. */
  function Heard(cols: Columns, n: nat, r: nat): nat
    requires Rounds(cols, 0, n)
  {
    var after := Dances(cols, 0, n, r);
    StepKeepsRounds(after.0, after.1, n);
    ShoutIsNumber(after.0);
    DigitsValue(ShoutAt(cols, n, r))
  }

  /**
   * Part 2: dance until some shout is heard for the 2024th time; the
   * answer is that shout, read as a number, times the number of dances.
   * The source loops until then; the model asks for a dance, bound, by
   * which that has happened, and the answer does not depend on which.
   */
  method Part2(input: string, ghost bound: nat) returns (answer: string)
    requires Readable(Lines(input)) && |Lines(input)| >= 2
    requires Repeated(Shouts(ColumnsOf(input), |Lines(input)|, bound))
    ensures var r := FirstRepeat(Shouts(ColumnsOf(input), |Lines(input)|, bound), 1);
            answer == ShowNat(Product(Heard(ColumnsOf(input), |Lines(input)|, r), r))
  {
    var world := new World.Parse(input);
    answer := Listen(world, world.columns, |Lines(input)|, bound);
  }

  /** The loop of part 2, on a world that has not danced yet. */
  method Listen(world: World, ghost cols: Columns, ghost n: nat, ghost bound: nat) returns (answer: string)
    requires Danced(world, cols, n, 0) && Repeated(Shouts(cols, n, bound))
    modifies world
    ensures var r := FirstRepeat(Shouts(cols, n, bound), 1);
            answer == ShowNat(Product(Heard(cols, n, r), r))
  {
    ghost var all := Shouts(cols, n, bound);
    var counts: map<string, nat> := map[];
    var round := 1;
    while true
      invariant Danced(world, cols, n, round - 1) && 1 <= round <= bound
      invariant Quiet(all, round) && Tally(counts, all[..round - 1])
      decreases bound - round
    {
      var shouted, count;
      shouted, counts, count := Hear(world, cols, n, round, all[..round - 1], counts);
      ShoutHeard(cols, n, all, round, shouted);
      if count == 2024 {
        answer := ShowNat(Product(ParseNat(shouted).value, round));
        return;
      }
      round := round + 1;
    }
  }

  /** One round of part 2: dance, and count the shout among those heard before. */
  method Hear(world: World, ghost cols: Columns, ghost n: nat, round: nat, ghost heard: seq<string>,
              counts: map<string, nat>)
    returns (shouted: string, counts': map<string, nat>, count: nat)
    requires round >= 1 && Danced(world, cols, n, round - 1) && Tally(counts, heard)
    modifies world
    ensures Danced(world, cols, n, round) && shouted == ShoutAt(cols, n, round)
    ensures Tally(counts', heard + [shouted]) && (Repeated(heard + [shouted]) <==> count == 2024)
    ensures ParseNat(shouted) == Some(Heard(cols, n, round))
  {
    shouted := DanceAgain(world, cols, n, round - 1);
    ShoutIsNumber(world.columns);
    count := if shouted in counts then counts[shouted] + 1 else 1;
    TallyNext(counts, heard, shouted, count);
    counts' := counts[shouted := count];
  }

  /**
   * The shout of round r, heard after quiet rounds, makes r the first
   * repeated round if it is repeated, and leaves rounds to go if not.
   */
  lemma ShoutHeard(cols: Columns, n: nat, all: seq<string>, round: nat, shouted: string)
    requires Rounds(cols, 0, n) && all == Shouts(cols, n, |all|) && Repeated(all)
    requires 1 <= round <= |all| && Quiet(all, round) && shouted == ShoutAt(cols, n, round)
    ensures all[..round] == all[..round - 1] + [shouted]
    ensures Repeated(all[..round]) ==> FirstRepeat(all, 1) == round
    ensures !Repeated(all[..round]) ==> round < |all| && Quiet(all, round + 1)
  {
    ShoutsTake(cols, n, |all|, round);
    if Repeated(all[..round]) {
      FirstRepeatIs(all, round);
    } else {
      assert round < |all| by {
        assert all[..|all|] == all;
      }
      QuietNext(all, round);
    }
  }

  /** The largest number of s, or 0 when s is empty. */
  function Highest(s: seq<nat>): (m: nat)
    ensures forall i :: 0 <= i < |s| ==> s[i] <= m
    ensures m == 0 || m in s
  {
    if s == [] then 0
    else
      var before := Highest(s[..|s| - 1]);
      if s[|s| - 1] > before then s[|s| - 1] else before
  }

  /** The numbers shouted at the first k dances. */
  function Heards(cols: Columns, n: nat, k: nat): (r: seq<nat>)
    requires Rounds(cols, 0, n)
    ensures |r| == k
  {
    if k == 0 then [] else Heards(cols, n, k - 1) + [Heard(cols, n, k)]
  }

  const P3Dances: nat := 10000000

  /** Part 3: the loudest shout of the first ten million dances. */
  method Part3(input: string) returns (answer: string)
    requires Readable(Lines(input)) && |Lines(input)| >= 2
    ensures answer == ShowNat(Highest(Heards(ColumnsOf(input), |Lines(input)|, P3Dances)))
  {
    var world := new World.Parse(input);
    answer := Loudest(world, world.columns, |Lines(input)|);
  }

  /** The loop of part 3, on a world that has not danced yet. */
  method Loudest(world: World, ghost cols: Columns, ghost n: nat) returns (answer: string)
    requires Danced(world, cols, n, 0)
    modifies world
    ensures answer == ShowNat(Highest(Heards(cols, n, P3Dances)))
  {
    var loudest := 0;
    for i := 0 to P3Dances
      invariant Danced(world, cols, n, i)
      invariant loudest == Highest(Heards(cols, n, i))
    {
      var shouted := DanceAgain(world, cols, n, i);
      ShoutIsNumber(world.columns);
      var value := ParseNat(shouted).value;
      assert Heards(cols, n, i + 1) == Heards(cols, n, i) + [value];
      if value > loudest {
        loudest := value;
      }
    }
    answer := ShowNat(loudest);
  }

  /** A dance on given columns, checked column by column. */
  lemma StepLiteral(a: Columns, c: nat, b: Columns)
    requires |a| == 4 && |b| == 4 && c < 4 && |a[c]| >= 1 && |a[Next(c)]| >= 1
    requires var d, x := Next(c), a[c][0]; var i := InsertIndex(x, |a[d]|);
             b[c] == a[c][1..] && b[d] == a[d][..i] + [x] + a[d][i..]
    requires forall j :: 0 <= j < 4 && j != c && j != Next(c) ==> b[j] == a[j]
    ensures Step(a, c) == b
  {
    StepMoves(a, c);
    assert Step(a, c)[Next(c)] == b[Next(c)];
  }

  /** The columns of the part 1 example: four lines of four dancers. */
  const ExampleColumns: Columns := [[2, 3, 4, 5], [3, 4, 5, 2], [4, 5, 2, 3], [5, 2, 3, 4]]

  /**
   * The first dance of the part 1 example: dancer 2 leaves the first
   * column, claps round the second and joins it at index 1; the shout
   * is 3345.
   */
  lemma ExampleFirstDance()
    ensures Step(ExampleColumns, 0) == [[3, 4, 5], [3, 2, 4, 5, 2], [4, 5, 2, 3], [5, 2, 3, 4]]
    ensures Shout(Step(ExampleColumns, 0)) == "3345"
  {
    assert InsertIndex(2, 4) == 1;
    StepLiteral(ExampleColumns, 0, [[3, 4, 5], [3, 2, 4, 5, 2], [4, 5, 2, 3], [5, 2, 3, 4]]);
  }
}
