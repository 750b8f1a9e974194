/**
 * The potions of day 1 (src/day1.rs): a line of creatures, each needing a
 * number of potions, fought alone (part 1), in pairs (part 2) or in
 * threes (part 3), where every creature of a group that does not fight
 * alone needs one extra potion per other creature beside it.
 */
module Day1 {
  import opened Wrappers

  /** The creatures part 1 knows. */
  predicate Known(c: char)
  {
    c == 'A' || c == 'B' || c == 'C'
  }

  /** The potions a creature of part 1 needs: A 0, B 1, C 3; anything else panics. */
  function Potions(c: char): (r: nat)
    requires Known(c)
    ensures r <= 3
    ensures r == 0 <==> c == 'A'
  {
    match c
    case 'A' => 0
    case 'B' => 1
    case 'C' => 3
  }

  /** Part 1: the potions of the creatures, added up. */
  function Part1(s: string): (r: nat)
    requires forall i :: 0 <= i < |s| ==> Known(s[i])
    ensures r <= 3 * |s|
  {
    if s == [] then 0 else Part1(s[..|s| - 1]) + Potions(s[|s| - 1])
  }

  /** Part 1 counts 3 per C, 1 per B and nothing per A. */
  lemma {:induction false} Part1Counts(s: string)
    requires forall i :: 0 <= i < |s| ==> Known(s[i])
    ensures Part1(s) == Count(s, 'B') + 3 * Count(s, 'C')
    decreases |s|
  {
    if s != [] {
      Part1Counts(s[..|s| - 1]);
      CountSnoc(s[..|s| - 1], s[|s| - 1], 'B');
      CountSnoc(s[..|s| - 1], s[|s| - 1], 'C');
      assert s[..|s| - 1] + [s[|s| - 1]] == s;
    }
  }

  /** How many times c occurs in s. */
  function Count(s: string, c: char): nat
  {
    if s == [] then 0 else Count(s[..|s| - 1], c) + (if s[|s| - 1] == c then 1 else 0)
  }

  lemma CountSnoc(s: string, d: char, c: char)
    ensures Count(s + [d], c) == Count(s, c) + (if d == c then 1 else 0)
  {
    assert (s + [d])[..|s|] == s;
  }

  /** The characters of parts 2 and 3: the four creatures and 'x', an empty place. */
  predicate Placeable(c: char)
  {
    c == 'A' || c == 'B' || c == 'C' || c == 'D' || c == 'x'
  }

  /** p2_map: a creature's potions, None for an empty place; anything else panics. */
  function Creature(c: char): (r: Option<nat>)
    requires Placeable(c)
    ensures r.None? <==> c == 'x'
    ensures c != 'D' && c != 'x' ==> r == Some(Potions(c))
    ensures r.Some? ==> r.value <= 5
  {
    match c
    case 'A' => Some(0)
    case 'B' => Some(1)
    case 'C' => Some(3)
    case 'D' => Some(5)
    case 'x' => None
  }

  /** A pair: both present need their potions and 2 more; a lone one needs only its own. */
  function PairPotions(a: Option<nat>, b: Option<nat>): (r: nat)
    ensures a.GetOr(0) + b.GetOr(0) <= r <= a.GetOr(0) + b.GetOr(0) + 2
    ensures r == a.GetOr(0) + b.GetOr(0) + 2 <==> a.Some? && b.Some?
  {
    match (a, b)
    case (Some(a), Some(b)) => a + b + 2
    case (Some(a), None) => a
    case (None, Some(b)) => b
    case (None, None) => 0
  }

  /** A triple: three present need 6 more, two present 2 more, one alone nothing more. */
  function TriplePotions(a: Option<nat>, b: Option<nat>, c: Option<nat>): (r: nat)
    ensures a.GetOr(0) + b.GetOr(0) + c.GetOr(0) <= r <= a.GetOr(0) + b.GetOr(0) + c.GetOr(0) + 6
    ensures r == a.GetOr(0) + b.GetOr(0) + c.GetOr(0) + 6 <==> a.Some? && b.Some? && c.Some?
    ensures r == a.GetOr(0) + b.GetOr(0) + c.GetOr(0) <==> !(a.Some? && b.Some?) && !(a.Some? && c.Some?) && !(b.Some? && c.Some?)
  {
    match (a, b, c)
    case (Some(a), Some(b), Some(c)) => a + b + c + 6
    case (Some(a), Some(b), None) => a + b + 2
    case (Some(a), None, Some(c)) => a + c + 2
    case (None, Some(b), Some(c)) => b + c + 2
    case (Some(a), None, None) => a
    case (None, Some(b), None) => b
    case (None, None, Some(c)) => c
    case (None, None, None) => 0
  }

  /** The potions of the creatures present in a group. */
  function Present(group: seq<Option<nat>>): nat
  {
    if group == [] then 0
    else Present(group[..|group| - 1]) + group[|group| - 1].GetOr(0)
  }

  /** How many creatures a group holds. */
  function Crowd(group: seq<Option<nat>>): nat
  {
    if group == [] then 0
    else Crowd(group[..|group| - 1]) + (if group[|group| - 1].Some? then 1 else 0)
  }

  /**
   * The rule behind both tables: a group of k creatures needs their own
   * potions and one more per creature per other creature, k * (k - 1).
   */
  function GroupPotions(group: seq<Option<nat>>): nat
  {
    Present(group) + Crowd(group) * (Crowd(group) - 1)
  }

  /** A pair holds its members' potions and its present members. */
  lemma PairTally(a: Option<nat>, b: Option<nat>)
    ensures Present([a, b]) == a.GetOr(0) + b.GetOr(0)
    ensures Crowd([a, b]) == (if a.Some? then 1 else 0) + (if b.Some? then 1 else 0)
  {
    assert [a, b][..1] == [a];
    assert [a][..0] == [];
    assert Present([a]) == a.GetOr(0);
    assert Crowd([a]) == (if a.Some? then 1 else 0);
  }

  /** A triple holds its members' potions and its present members. */
  lemma TripleTally(a: Option<nat>, b: Option<nat>, c: Option<nat>)
    ensures Present([a, b, c]) == a.GetOr(0) + b.GetOr(0) + c.GetOr(0)
    ensures Crowd([a, b, c]) == (if a.Some? then 1 else 0) + (if b.Some? then 1 else 0) + (if c.Some? then 1 else 0)
  {
    assert [a, b, c][..2] == [a, b];
    PairTally(a, b);
  }

  /** The pair table is the group rule for two. */
  lemma PairIsGroup(a: Option<nat>, b: Option<nat>)
    ensures PairPotions(a, b) == GroupPotions([a, b])
  {
    PairTally(a, b);
    match (a, b)
    case (Some(_), Some(_)) => assert Crowd([a, b]) == 2;
    case (Some(_), None) => assert Crowd([a, b]) == 1;
    case (None, Some(_)) => assert Crowd([a, b]) == 1;
    case (None, None) => assert Crowd([a, b]) == 0;
  }

  /** The triple table is the group rule for three. */
  lemma TripleIsGroup(a: Option<nat>, b: Option<nat>, c: Option<nat>)
    ensures TriplePotions(a, b, c) == GroupPotions([a, b, c])
  {
    TripleTally(a, b, c);
    match (a, b, c)
    case (Some(_), Some(_), Some(_)) => assert Crowd([a, b, c]) == 3;
    case (Some(_), Some(_), None) => assert Crowd([a, b, c]) == 2;
    case (Some(_), None, Some(_)) => assert Crowd([a, b, c]) == 2;
    case (None, Some(_), Some(_)) => assert Crowd([a, b, c]) == 2;
    case (Some(_), None, None) => assert Crowd([a, b, c]) == 1;
    case (None, Some(_), None) => assert Crowd([a, b, c]) == 1;
    case (None, None, Some(_)) => assert Crowd([a, b, c]) == 1;
    case (None, None, None) => assert Crowd([a, b, c]) == 0;
  }

  /** The order within a group does not matter: every permutation of a pair or triple needs the same. */
  lemma GroupsUnordered(a: Option<nat>, b: Option<nat>, c: Option<nat>)
    ensures PairPotions(a, b) == PairPotions(b, a)
    ensures TriplePotions(a, b, c) == TriplePotions(b, a, c) == TriplePotions(a, c, b)
    ensures TriplePotions(a, b, c) == TriplePotions(c, b, a) == TriplePotions(b, c, a) == TriplePotions(c, a, b)
  {
  }

  /** Whether the characters that fill whole groups of n are all placeable: tuples() drops the rest unread. */
  predicate Fillable(s: string, n: nat)
    requires n >= 1
  {
    forall i :: 0 <= i < |s| - |s| % n ==> Placeable(s[i])
  }

  /** Creatures of part 1 fill groups of any size. */
  lemma KnownFillable(s: string, n: nat)
    requires n >= 1 && forall i :: 0 <= i < |s| ==> Known(s[i])
    ensures Fillable(s, n)
  {
    assert |s| % n >= 0;
  }

  /** Part 2: the pairs of the line, a leftover creature ignored. */
  function Part2(s: string): (r: nat)
    requires Fillable(s, 2)
    ensures r <= 6 * |s|
    decreases |s|
  {
    if |s| < 2 then 0
    else
      assert Fillable(s[2..], 2) by {
        forall i | 0 <= i < |s[2..]| - |s[2..]| % 2
          ensures Placeable(s[2..][i])
        {
          assert s[2..][i] == s[i + 2];
        }
      }
      PairPotions(Creature(s[0]), Creature(s[1])) + Part2(s[2..])
  }

  /** Part 3: the triples of the line, one or two leftover creatures ignored. */
  function Part3(s: string): (r: nat)
    requires Fillable(s, 3)
    ensures r <= 7 * |s|
    decreases |s|
  {
    if |s| < 3 then 0
    else
      assert Fillable(s[3..], 3) by {
        forall i | 0 <= i < |s[3..]| - |s[3..]| % 3
          ensures Placeable(s[3..][i])
        {
          assert s[3..][i] == s[i + 3];
        }
      }
      TriplePotions(Creature(s[0]), Creature(s[1]), Creature(s[2])) + Part3(s[3..])
  }

  /**
   * With no empty places and only the creatures of part 1, pairs cost part
   * 1 plus one potion per creature, and triples plus two.
   */
  lemma {:induction false} FullGroups(s: string)
    requires forall i :: 0 <= i < |s| ==> Known(s[i])
    ensures (KnownFillable(s, 2); |s| % 2 == 0 ==> Part2(s) == Part1(s) + |s|)
    ensures (KnownFillable(s, 3); |s| % 3 == 0 ==> Part3(s) == Part1(s) + 2 * |s|)
  {
    if |s| % 2 == 0 {
      FullPairs(s);
    }
    if |s| % 3 == 0 {
      FullTriples(s);
    }
  }

  lemma {:induction false} FullPairs(s: string)
    requires forall i :: 0 <= i < |s| ==> Known(s[i])
    requires |s| % 2 == 0
    ensures (KnownFillable(s, 2); Part2(s) == Part1(s) + |s|)
    decreases |s|
  {
    if |s| >= 2 {
      FullPairs(s[2..]);
      Part1Front(s, 2);
      assert s[..2] == [s[0], s[1]];
      Part1Few(s[0], s[1], 'A');
    }
  }

  lemma {:induction false} FullTriples(s: string)
    requires forall i :: 0 <= i < |s| ==> Known(s[i])
    requires |s| % 3 == 0
    ensures (KnownFillable(s, 3); Part3(s) == Part1(s) + 2 * |s|)
    decreases |s|
  {
    if |s| >= 3 {
      FullTriples(s[3..]);
      Part1Front(s, 3);
      assert s[..3] == [s[0], s[1], s[2]];
      Part1Few(s[0], s[1], s[2]);
    }
  }

  /** Part 1 of two or three creatures. */
  lemma Part1Few(a: char, b: char, c: char)
    requires Known(a) && Known(b) && Known(c)
    ensures Part1([a, b]) == Potions(a) + Potions(b)
    ensures Part1([a, b, c]) == Potions(a) + Potions(b) + Potions(c)
  {
    assert [a, b, c][..2] == [a, b];
    assert [a, b][..1] == [a];
    assert [a][..0] == [];
    assert Part1([a]) == Potions(a);
    assert Part1([a, b]) == Part1([a]) + Potions(b);
    assert Part1([a, b, c]) == Part1([a, b]) + Potions(c);
  }

  /** Part 1 of a line is part 1 of its first k creatures plus part 1 of the rest. */
  lemma {:induction false} Part1Front(s: string, k: nat)
    requires forall i :: 0 <= i < |s| ==> Known(s[i])
    requires k <= |s|
    ensures Part1(s) == Part1(s[..k]) + Part1(s[k..])
    decreases |s|
  {
    if |s| > k {
      var t := s[..|s| - 1];
      Part1Front(t, k);
      assert t[..k] == s[..k];
      assert t[k..] == s[k..][..|s[k..]| - 1];
    } else {
      assert s[..k] == s;
      assert s[k..] == [];
    }
  }
}
