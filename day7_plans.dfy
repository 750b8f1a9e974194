/**
 * The plan generator of day 7 (src/day7.rs): every action plan of eleven
 * steps with five '+', three '-' and three '=', built by a recursion that
 * extends a partial plan with each action still allowed and collects the
 * full ones into a shared set.
 */
module Day7Plans {
  import opened Day7Track

  /** How often each action may occur in a plan. */
  function Limit(i: Instruction): nat
  {
    match i
    case AddOne => 5
    case SubtractOne => 3
    case Maintain => 3
  }

  const PlanLength: nat := 11

  /** The number of occurrences of a in p. */
  function Count(p: seq<Instruction>, a: Instruction): nat
  {
    if p == [] then 0 else Count(p[..|p| - 1], a) + (if p[|p| - 1] == a then 1 else 0)
  }

  /** Occurrences add up over a concatenation. */
  lemma {:induction false} CountAppend(p: seq<Instruction>, q: seq<Instruction>, a: Instruction)
    ensures Count(p + q, a) == Count(p, a) + Count(q, a)
    decreases |q|
  {
    if q == [] {
      assert p + q == p;
    } else {
      var q' := q[..|q| - 1];
      CountAppend(p, q', a);
      assert (p + q)[..|p + q| - 1] == p + q';
      assert (p + q)[|p + q| - 1] == q[|q| - 1];
      assert Count(p + q, a) == Count(p + q', a) + (if q[|q| - 1] == a then 1 else 0);
      assert Count(q, a) == Count(q', a) + (if q[|q| - 1] == a then 1 else 0);
    }
  }

  /** The three actions' occurrences make up the length. */
  lemma {:induction false} CountsMakeLength(p: seq<Instruction>)
    ensures Count(p, AddOne) + Count(p, SubtractOne) + Count(p, Maintain) == |p|
    decreases |p|
  {
    if p != [] {
      CountsMakeLength(p[..|p| - 1]);
    }
  }

  /**
   * The fold at the head of generate_plans_recursive: how many '+', '-' and
   * '=' a partial plan holds, which together make up its length.
   */
  function Tally(p: seq<Instruction>): (r: (nat, nat, nat))
    ensures r == (Count(p, AddOne), Count(p, SubtractOne), Count(p, Maintain))
  {
    if p == [] then (0, 0, 0)
    else
      var t := Tally(p[..|p| - 1]);
      match p[|p| - 1]
      case AddOne => (t.0 + 1, t.1, t.2)
      case SubtractOne => (t.0, t.1 + 1, t.2)
      case Maintain => (t.0, t.1, t.2 + 1)
  }

  /** p has exactly a '+', s '-' and m '='. */
  predicate HasCounts(p: seq<Instruction>, a: nat, s: nat, m: nat)
  {
    Count(p, AddOne) == a && Count(p, SubtractOne) == s && Count(p, Maintain) == m
  }

  /** A full plan: eleven actions, five of them '+', three '-' and three '='. */
  predicate IsPlan(p: seq<Instruction>)
  {
    |p| == PlanLength && HasCounts(p, 5, 3, 3)
  }

  /** The action at position k was still below its limit among the actions before it. */
  predicate AllowedAt(p: seq<Instruction>, k: nat)
    requires k < |p|
  {
    Count(p[..k], p[k]) < Limit(p[k])
  }

  /**
   * The full plans the recursion reaches from the partial plan current:
   * eleven-long extensions of current in which every action appended after
   * current was still below its limit at the point it was appended.
   */
  predicate GeneratedFrom(current: seq<Instruction>, p: seq<Instruction>)
  {
    && |p| == PlanLength && |current| <= PlanLength && p[..|current|] == current
    && forall k :: |current| <= k < PlanLength ==> AllowedAt(p, k)
  }

  /** A plan reached from current goes through the extension by its next action, which was allowed. */
  lemma GeneratedThroughNext(current: seq<Instruction>, p: seq<Instruction>)
    requires |current| < PlanLength && GeneratedFrom(current, p)
    ensures Count(current, p[|current|]) < Limit(p[|current|])
    ensures GeneratedFrom(current + [p[|current|]], p)
  {
    var n := |current|;
    var a := p[n];
    assert AllowedAt(p, n);
    Snoc(p, n);
    assert p[..n + 1] == current + [a];
    forall k | n + 1 <= k < PlanLength
      ensures AllowedAt(p, k)
    {
      assert n <= k;
    }
  }

  /** Taking one more element of a sequence appends it. */
  lemma Snoc(p: seq<Instruction>, n: nat)
    requires n < |p|
    ensures p[..n + 1] == p[..n] + [p[n]]
  {
  }

  /** A plan reached through an allowed extension is reached from current. */
  lemma GeneratedThroughExtension(current: seq<Instruction>, a: Instruction, p: seq<Instruction>)
    requires |current| < PlanLength && Count(current, a) < Limit(a) && GeneratedFrom(current + [a], p)
    ensures GeneratedFrom(current, p)
  {
    var n := |current|;
    assert p[..n] == p[..n + 1][..n] == (current + [a])[..n] == current;
    assert p[n] == p[..n + 1][n] == (current + [a])[n] == a;
  }

  /** The recursion's branching: a plan is reached from current through exactly one allowed extension. */
  lemma GeneratedStep(current: seq<Instruction>, p: seq<Instruction>)
    requires |current| < PlanLength
    ensures GeneratedFrom(current, p) <==>
              || (Count(current, AddOne) < 5 && GeneratedFrom(current + [AddOne], p))
              || (Count(current, SubtractOne) < 3 && GeneratedFrom(current + [SubtractOne], p))
              || (Count(current, Maintain) < 3 && GeneratedFrom(current + [Maintain], p))
  {
    if GeneratedFrom(current, p) {
      GeneratedThroughNext(current, p);
      match p[|current|]
      case AddOne =>
      case SubtractOne =>
      case Maintain =>
    }
    if Count(current, AddOne) < 5 && GeneratedFrom(current + [AddOne], p) {
      GeneratedThroughExtension(current, AddOne, p);
    }
    if Count(current, SubtractOne) < 3 && GeneratedFrom(current + [SubtractOne], p) {
      GeneratedThroughExtension(current, SubtractOne, p);
    }
    if Count(current, Maintain) < 3 && GeneratedFrom(current + [Maintain], p) {
      GeneratedThroughExtension(current, Maintain, p);
    }
  }

  /**
   * generate_plans_recursive: adds to plans every full plan reachable from
   * current, extending it by '+' while fewer than five, by '-' and by '='
   * while fewer than three of each.
   */
  method GeneratePlansRecursive(current: seq<Instruction>, plans: set<seq<Instruction>>)
    returns (out: set<seq<Instruction>>)
    requires |current| <= PlanLength
    ensures forall p :: p in out <==> p in plans || GeneratedFrom(current, p)
    decreases PlanLength - |current|
  {
    if |current| == PlanLength {
      out := plans + {current};
      forall p | GeneratedFrom(current, p)
        ensures p == current
      {
        assert p == p[..|current|];
      }
      return;
    }
    var t := Tally(current);
    out := plans;
    if t.0 < 5 {
      out := GeneratePlansRecursive(current + [AddOne], out);
    }
    if t.1 < 3 {
      out := GeneratePlansRecursive(current + [SubtractOne], out);
    }
    if t.2 < 3 {
      out := GeneratePlansRecursive(current + [Maintain], out);
    }
    forall p
      ensures p in out <==> p in plans || GeneratedFrom(current, p)
    {
      GeneratedStep(current, p);
    }
  }

  /** No prefix holds more of an action than the whole sequence. */
  lemma PrefixCountBound(p: seq<Instruction>, j: nat, a: Instruction)
    requires j <= |p|
    ensures Count(p[..j], a) <= Count(p, a)
  {
    assert p == p[..j] + p[j..];
    CountAppend(p[..j], p[j..], a);
  }

  /** Following the limits at every step, no prefix exceeds any limit. */
  lemma {:induction false} PrefixWithinLimits(p: seq<Instruction>, k: nat)
    requires GeneratedFrom([], p) && k <= PlanLength
    ensures forall a :: Count(p[..k], a) <= Limit(a)
  {
    if k > 0 {
      PrefixWithinLimits(p, k - 1);
      assert p[..k][..k - 1] == p[..k - 1];
      assert AllowedAt(p, k - 1);
    }
  }

  /** The recursion started from the empty plan reaches exactly the full plans. */
  lemma GeneratedFromEmpty(p: seq<Instruction>)
    ensures GeneratedFrom([], p) <==> IsPlan(p)
  {
    if GeneratedFrom([], p) {
      PrefixWithinLimits(p, PlanLength);
      assert p[..PlanLength] == p;
      CountsMakeLength(p);
    }
    if IsPlan(p) {
      forall k | 0 <= k < PlanLength
        ensures AllowedAt(p, k)
      {
        assert p[..k + 1][..k] == p[..k];
        PrefixCountBound(p, k + 1, p[k]);
      }
    }
  }

  /** x in front of every sequence of S. */
  function Prepend(x: Instruction, S: set<seq<Instruction>>): set<seq<Instruction>>
  {
    set q | q in S :: [x] + q
  }

  /** Prepending the same action is one-to-one, so it keeps the number of sequences. */
  lemma {:induction false} PrependCard(x: Instruction, S: set<seq<Instruction>>)
    ensures |Prepend(x, S)| == |S|
    decreases |S|
  {
    if S != {} {
      var q :| q in S;
      var rest := S - {q};
      PrependCard(x, rest);
      assert Prepend(x, S) == Prepend(x, rest) + {[x] + q};
      assert [x] + q !in Prepend(x, rest) by {
        forall r | r in rest
          ensures [x] + r != [x] + q
        {
          assert ([x] + r)[1..] == r;
          assert ([x] + q)[1..] == q;
        }
      }
    }
  }

  /** The sequences with a '+', s '-' and m '=', built by their first action. */
  function PlansWith(a: nat, s: nat, m: nat): set<seq<Instruction>>
    decreases a + s + m
  {
    if a + s + m == 0 then {[]}
    else
      (if a > 0 then Prepend(AddOne, PlansWith(a - 1, s, m)) else {})
      + (if s > 0 then Prepend(SubtractOne, PlansWith(a, s - 1, m)) else {})
      + (if m > 0 then Prepend(Maintain, PlansWith(a, s, m - 1)) else {})
  }

  /** The members of Prepend(x, S) are x followed by a member of S. */
  lemma PrependMember(x: Instruction, S: set<seq<Instruction>>, p: seq<Instruction>)
    ensures p in Prepend(x, S) <==> |p| > 0 && p[0] == x && p[1..] in S
  {
    if |p| > 0 && p[0] == x && p[1..] in S {
      assert p == [x] + p[1..];
    }
    if p in Prepend(x, S) {
      var q :| q in S && p == [x] + q;
      assert p[1..] == q;
    }
  }

  /** Counting over a sequence with a first element. */
  lemma CountFront(p: seq<Instruction>, b: Instruction)
    requires |p| > 0
    ensures Count(p, b) == Count(p[1..], b) + (if p[0] == b then 1 else 0)
  {
    assert p == [p[0]] + p[1..];
    CountAppend([p[0]], p[1..], b);
    assert [p[0]][..0] == [];
  }

  /** One step into PlansWith: a member is a first action still available followed by a member with one fewer of it. */
  lemma PlansWithUnfold(a: nat, s: nat, m: nat, p: seq<Instruction>)
    requires a + s + m > 0
    ensures p in PlansWith(a, s, m) <==>
              |p| > 0 &&
              ( || (p[0] == AddOne && a > 0 && p[1..] in PlansWith(a - 1, s, m))
                || (p[0] == SubtractOne && s > 0 && p[1..] in PlansWith(a, s - 1, m))
                || (p[0] == Maintain && m > 0 && p[1..] in PlansWith(a, s, m - 1)))
  {
    var A := if a > 0 then Prepend(AddOne, PlansWith(a - 1, s, m)) else {};
    var S := if s > 0 then Prepend(SubtractOne, PlansWith(a, s - 1, m)) else {};
    var M := if m > 0 then Prepend(Maintain, PlansWith(a, s, m - 1)) else {};
    assert PlansWith(a, s, m) == A + S + M;
    if a > 0 {
      PrependMember(AddOne, PlansWith(a - 1, s, m), p);
    }
    if s > 0 {
      PrependMember(SubtractOne, PlansWith(a, s - 1, m), p);
    }
    if m > 0 {
      PrependMember(Maintain, PlansWith(a, s, m - 1), p);
    }
  }

  /** The same step for the counts: the first action accounts for one of its kind. */
  lemma HasCountsUnfold(a: nat, s: nat, m: nat, p: seq<Instruction>)
    requires |p| > 0
    ensures |p| == a + s + m && HasCounts(p, a, s, m) <==>
              || (p[0] == AddOne && a > 0 && |p[1..]| == a - 1 + s + m && HasCounts(p[1..], a - 1, s, m))
              || (p[0] == SubtractOne && s > 0 && |p[1..]| == a + s - 1 + m && HasCounts(p[1..], a, s - 1, m))
              || (p[0] == Maintain && m > 0 && |p[1..]| == a + s + m - 1 && HasCounts(p[1..], a, s, m - 1))
  {
    CountFront(p, AddOne);
    CountFront(p, SubtractOne);
    CountFront(p, Maintain);
  }

  /** PlansWith holds exactly the sequences of length a + s + m with those counts. */
  lemma {:induction false} PlansWithMembers(a: nat, s: nat, m: nat, p: seq<Instruction>)
    ensures p in PlansWith(a, s, m) <==> |p| == a + s + m && HasCounts(p, a, s, m)
    decreases a + s + m
  {
    if a + s + m == 0 {
      if |p| == 0 {
        assert p == [];
      } else {
        CountsMakeLength(p);
      }
    } else {
      PlansWithUnfold(a, s, m, p);
      if p != [] {
        HasCountsUnfold(a, s, m, p);
        if a > 0 {
          PlansWithMembers(a - 1, s, m, p[1..]);
        }
        if s > 0 {
          PlansWithMembers(a, s - 1, m, p[1..]);
        }
        if m > 0 {
          PlansWithMembers(a, s, m - 1, p[1..]);
        }
      }
    }
  }

  /** The multinomial coefficient (a + s + m)! / (a! s! m!), by its Pascal-like recurrence. */
  function Multinomial(a: nat, s: nat, m: nat): nat
    decreases a + s + m
  {
    if a + s + m == 0 then 1
    else
      (if a > 0 then Multinomial(a - 1, s, m) else 0)
      + (if s > 0 then Multinomial(a, s - 1, m) else 0)
      + (if m > 0 then Multinomial(a, s, m - 1) else 0)
  }

  /** The three branches of PlansWith share no member: they differ in the first action. */
  lemma BranchesDisjoint(A: set<seq<Instruction>>, S: set<seq<Instruction>>, M: set<seq<Instruction>>)
    requires forall p :: p in A ==> |p| > 0 && p[0] == AddOne
    requires forall p :: p in S ==> |p| > 0 && p[0] == SubtractOne
    requires forall p :: p in M ==> |p| > 0 && p[0] == Maintain
    ensures |A + S + M| == |A| + |S| + |M|
  {
    assert A * S == {};
    assert (A + S) * M == {};
  }

  /** Every member of Prepend(x, S) starts with x, and there are as many as in S. */
  lemma PrependBranch(x: Instruction, S: set<seq<Instruction>>, k: nat)
    requires |S| == k
    ensures |Prepend(x, S)| == k && forall p :: p in Prepend(x, S) ==> |p| > 0 && p[0] == x
  {
    PrependCard(x, S);
  }

  /** There are Multinomial(a, s, m) sequences with those counts. */
  lemma {:induction false} PlansWithCard(a: nat, s: nat, m: nat)
    ensures |PlansWith(a, s, m)| == Multinomial(a, s, m)
    decreases a + s + m
  {
    if a + s + m > 0 {
      var A := if a > 0 then Prepend(AddOne, PlansWith(a - 1, s, m)) else {};
      var S := if s > 0 then Prepend(SubtractOne, PlansWith(a, s - 1, m)) else {};
      var M := if m > 0 then Prepend(Maintain, PlansWith(a, s, m - 1)) else {};
      assert PlansWith(a, s, m) == A + S + M;
      if a > 0 {
        PlansWithCard(a - 1, s, m);
        PrependBranch(AddOne, PlansWith(a - 1, s, m), Multinomial(a - 1, s, m));
      }
      if s > 0 {
        PlansWithCard(a, s - 1, m);
        PrependBranch(SubtractOne, PlansWith(a, s - 1, m), Multinomial(a, s - 1, m));
      }
      if m > 0 {
        PlansWithCard(a, s, m - 1);
        PrependBranch(Maintain, PlansWith(a, s, m - 1), Multinomial(a, s, m - 1));
      }
      BranchesDisjoint(A, S, M);
    }
  }

  function Factorial(n: nat): nat
  {
    if n == 0 then 1 else n * Factorial(n - 1)
  }

  function FactorialProduct(a: nat, s: nat, m: nat): nat
  {
    Factorial(a) * Factorial(s) * Factorial(m)
  }

  lemma Scale(x: int, y: int, z: int, k: int)
    requires x * y == z
    ensures x * (k * y) == k * z
  {
  }

  lemma Associate(x: int, k: int, y: int, z: int)
    ensures (k * x) * y * z == k * (x * y * z)
    ensures y * (k * x) * z == k * (y * x * z)
    ensures y * z * (k * x) == k * (y * z * x)
  {
  }

  lemma Distribute(x: int, y: int, z: int, f: int)
    ensures (x + y + z) * f == x * f + y * f + z * f
  {
  }

  /** The recurrence gives (a + s + m)! / (a! s! m!). */
  lemma {:induction false} MultinomialFactorials(a: nat, s: nat, m: nat)
    ensures Multinomial(a, s, m) * FactorialProduct(a, s, m) == Factorial(a + s + m)
    decreases a + s + m
  {
    var n := a + s + m;
    if n > 0 {
      var prev := Factorial(n - 1);
      var fp := FactorialProduct(a, s, m);
      var ta := if a > 0 then Multinomial(a - 1, s, m) else 0;
      var ts := if s > 0 then Multinomial(a, s - 1, m) else 0;
      var tm := if m > 0 then Multinomial(a, s, m - 1) else 0;
      assert ta * fp == a * prev by {
        if a > 0 {
          MultinomialFactorials(a - 1, s, m);
          Associate(Factorial(a - 1), a, Factorial(s), Factorial(m));
          Scale(ta, FactorialProduct(a - 1, s, m), prev, a);
        }
      }
      assert ts * fp == s * prev by {
        if s > 0 {
          MultinomialFactorials(a, s - 1, m);
          Associate(Factorial(s - 1), s, Factorial(a), Factorial(m));
          Scale(ts, FactorialProduct(a, s - 1, m), prev, s);
        }
      }
      assert tm * fp == m * prev by {
        if m > 0 {
          MultinomialFactorials(a, s, m - 1);
          Associate(Factorial(m - 1), m, Factorial(a), Factorial(s));
          Scale(tm, FactorialProduct(a, s, m - 1), prev, m);
        }
      }
      Distribute(ta, ts, tm, fp);
      Distribute(a, s, m, prev);
    }
  }

  lemma SmallFactorials()
    ensures FactorialProduct(5, 3, 3) == 4320 && Factorial(11) == 39916800
  {
  }

  /** 11! / (5! 3! 3!) = 9240 plans. */
  lemma PlanCount()
    ensures Multinomial(5, 3, 3) == 9240
  {
    SmallFactorials();
    MultinomialFactorials(5, 3, 3);
  }

  /**
   * generate_possible_plans: the set the recursion fills from the empty
   * plan holds every full plan and nothing else, 9240 of them.
   */
  method GeneratePossiblePlans() returns (plans: set<seq<Instruction>>)
    ensures forall p :: p in plans <==> IsPlan(p)
    ensures |plans| == 9240
  {
    plans := GeneratePlansRecursive([], {});
    ghost var a, s, m := 5, 3, 3;
    forall p
      ensures p in plans <==> p in PlansWith(a, s, m)
      ensures p in plans <==> IsPlan(p)
    {
      GeneratedFromEmpty(p);
      PlansWithMembers(a, s, m, p);
    }
    assert plans == PlansWith(a, s, m);
    PlansWithCard(a, s, m);
    PlanCount();
  }
}
