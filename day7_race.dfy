/**
 * The chariot race of day 7 (src/day7.rs): chariots that change power by
 * their own plan or by the track under them and collect their power as
 * essence at every step, the world that moves all of them one segment at
 * a time, the ranking by essence, and the three parts built from these.
 */
module Day7Race {
  import opened Wrappers
  import opened Text
  import opened Day7Track
  import opened Numbers
  import Day7Plans

  const StartPower: nat := 10

  /** The part of a chariot that changes: power, essence collected, place in its plan. */
  datatype ChariotState = ChariotState(power: nat, essence: nat, idx: nat)

  /** The power after one action: one more, one less but never below zero, or the same. */
  function NewPower(power: nat, i: Instruction): nat
  {
    match i
    case AddOne => power + 1
    case SubtractOne => if power == 0 then 0 else power - 1
    case Maintain => power
  }

  /** The power after a run of actions, applied first to last. */
  function PowerAfter(power: nat, acts: seq<Instruction>): nat
  {
    if acts == [] then power else NewPower(PowerAfter(power, acts[..|acts| - 1]), acts[|acts| - 1])
  }

  /**
   * Power moves by at most one per action, down only on '-'; it ends between
   * its start plus the '+' minus the '-' and its start plus the '+'. When it
   * starts at least as high as the number of actions it never hits zero, and
   * ends exactly at start plus '+' minus '-'.
   */
  lemma {:induction false} PowerAfterBounds(power: nat, acts: seq<Instruction>)
    ensures power + Day7Plans.Count(acts, AddOne) - Day7Plans.Count(acts, SubtractOne) <= PowerAfter(power, acts)
    ensures PowerAfter(power, acts) <= power + Day7Plans.Count(acts, AddOne)
    ensures power >= |acts| ==>
              PowerAfter(power, acts) == power + Day7Plans.Count(acts, AddOne) - Day7Plans.Count(acts, SubtractOne)
    decreases |acts|
  {
    if acts != [] {
      var init := acts[..|acts| - 1];
      PowerAfterBounds(power, init);
      Day7Plans.CountsMakeLength(init);
    }
  }

  /**
   * apply_instruction on a chariot's state: the new power, essence grown by
   * that new power, and the next place in the plan, wrapping at its end.
   */
  function Apply(st: ChariotState, i: Instruction, planLength: nat): (r: ChariotState)
    requires planLength > 0
    ensures r.idx < planLength
    ensures r.essence == st.essence + r.power
  {
    var power := NewPower(st.power, i);
    ChariotState(power, st.essence + power, (st.idx + 1) % planLength)
  }

  /** The action under the chariots: the current segment of the track, or '=' without a track. */
  function TrackAction(track: Option<seq<Instruction>>, segment: nat): Instruction
    requires SegmentOk(track, segment)
  {
    match track
    case None => Maintain
    case Some(t) => t[segment]
  }

  /** What a chariot runs: '+' and '-' of the track override its plan; '=' lets it follow the plan. */
  function Executed(action: Instruction, plan: seq<Instruction>, idx: nat): Instruction
    requires idx < |plan|
  {
    match action
    case AddOne => AddOne
    case SubtractOne => SubtractOne
    case Maintain => plan[idx]
  }

  /** A segment index that points into the track, when there is one. */
  predicate SegmentOk(track: Option<seq<Instruction>>, segment: nat)
  {
    track.Some? ==> segment < |track.value|
  }

  /** The segment after one step: one further, wrapping at the end of the track when there is one. */
  function NextSegment(segment: nat, track: Option<seq<Instruction>>): (r: nat)
    requires SegmentOk(track, segment)
    ensures SegmentOk(track, r)
  {
    match track
    case None => segment + 1
    case Some(t) => (segment + 1) % |t|
  }

  /** One step of one chariot, at the given segment. */
  function StepChariot(st: ChariotState, plan: seq<Instruction>, track: Option<seq<Instruction>>, segment: nat)
    : (r: ChariotState)
    requires |plan| > 0 && st.idx < |plan| && SegmentOk(track, segment)
    ensures r.idx < |plan|
  {
    Apply(st, Executed(TrackAction(track, segment), plan, st.idx), |plan|)
  }

  /** The segment after n steps. */
  function SegmentAfter(segment: nat, track: Option<seq<Instruction>>, n: nat): (r: nat)
    requires SegmentOk(track, segment)
    ensures SegmentOk(track, r)
  {
    if n == 0 then segment else NextSegment(SegmentAfter(segment, track, n - 1), track)
  }

  /** A chariot's state after n steps from the given segment. */
  function ChariotAfter(st: ChariotState, plan: seq<Instruction>, track: Option<seq<Instruction>>,
                        segment: nat, n: nat): (r: ChariotState)
    requires |plan| > 0 && st.idx < |plan| && SegmentOk(track, segment)
    ensures r.idx < |plan|
  {
    if n == 0 then st
    else StepChariot(ChariotAfter(st, plan, track, segment, n - 1), plan, track, SegmentAfter(segment, track, n - 1))
  }

  /** Without a track the segment only counts steps. */
  lemma {:induction false} SegmentAfterNoTrack(segment: nat, n: nat)
    ensures SegmentAfter(segment, None, n) == segment + n
  {
    if n > 0 {
      SegmentAfterNoTrack(segment, n - 1);
    }
  }

  /** Steps compose: a + b steps are a steps, then b more. */
  lemma {:induction false} SegmentAfterAdd(segment: nat, track: Option<seq<Instruction>>, a: nat, b: nat)
    requires SegmentOk(track, segment)
    ensures SegmentAfter(segment, track, a + b) == SegmentAfter(SegmentAfter(segment, track, a), track, b)
  {
    if b > 0 {
      SegmentAfterAdd(segment, track, a, b - 1);
    }
  }

  /** Before the end of the track is reached, the segment moves one place per step. */
  lemma {:induction false} SegmentAfterBeforeEnd(segment: nat, t: seq<Instruction>, n: nat)
    requires segment + n < |t|
    ensures SegmentAfter(segment, Some(t), n) == segment + n
  {
    if n > 0 {
      SegmentAfterBeforeEnd(segment, t, n - 1);
      SmallMod(segment + n, |t|);
    }
  }

  lemma SmallMod(x: nat, L: nat)
    requires x < L
    ensures x % L == x
  {
  }

  /** run_loop: one lap of the track brings the segment back to where it started. */
  lemma LapReturnsSegment(segment: nat, t: seq<Instruction>)
    requires segment < |t|
    ensures SegmentAfter(segment, Some(t), |t|) == segment
  {
    var L := |t|;
    SegmentAfterBeforeEnd(segment, t, L - segment - 1);
    assert SegmentAfter(segment, Some(t), L - segment) == 0 by {
      assert SegmentAfter(segment, Some(t), L - segment) == L % L;
    }
    SegmentAfterAdd(segment, Some(t), L - segment, segment);
    if segment > 0 {
      SegmentAfterBeforeEnd(0, t, segment);
    }
  }

  /**
   * A chariot's place in its plan moves on by one each step whatever the
   * action, wrapping like a segment on a track as long as the plan.
   */
  lemma {:induction false} PlanIndexFollows(st: ChariotState, plan: seq<Instruction>, track: Option<seq<Instruction>>,
                                            segment: nat, n: nat)
    requires |plan| > 0 && st.idx < |plan| && SegmentOk(track, segment)
    ensures ChariotAfter(st, plan, track, segment, n).idx == SegmentAfter(st.idx, Some(plan), n)
  {
    if n > 0 {
      PlanIndexFollows(st, plan, track, segment, n - 1);
    }
  }

  /** So a lap of the plan brings a chariot back to the same place in it. */
  lemma PlanIndexCycles(st: ChariotState, plan: seq<Instruction>, track: Option<seq<Instruction>>, segment: nat)
    requires |plan| > 0 && st.idx < |plan| && SegmentOk(track, segment)
    ensures ChariotAfter(st, plan, track, segment, |plan|).idx == st.idx
  {
    PlanIndexFollows(st, plan, track, segment, |plan|);
    LapReturnsSegment(st.idx, plan);
  }

  /** Essence never decreases, and power grows by at most one per step. */
  lemma {:induction false} EssenceGrows(st: ChariotState, plan: seq<Instruction>, track: Option<seq<Instruction>>,
                                        segment: nat, n: nat, m: nat)
    requires |plan| > 0 && st.idx < |plan| && SegmentOk(track, segment) && m <= n
    ensures ChariotAfter(st, plan, track, segment, m).essence <= ChariotAfter(st, plan, track, segment, n).essence
    ensures ChariotAfter(st, plan, track, segment, n).power <= st.power + n
    decreases n
  {
    if n > 0 {
      EssenceGrows(st, plan, track, segment, n - 1, if m == n then n - 1 else m);
    }
  }

  class Chariot {
    const name: string
    const plan: seq<Instruction>
    var power: nat
    var essence: nat
    var idx: nat

    /** The plan is not empty (the index wraps modulo its length) and the index points into it. */
    ghost predicate Valid()
      reads this
    {
      |plan| > 0 && idx < |plan|
    }

    function View(): ChariotState
      reads this
    {
      ChariotState(power, essence, idx)
    }

    /** A new chariot: power 10, no essence, at the start of its plan. */
    constructor FromParts(name: string, plan: seq<Instruction>)
      requires |plan| > 0
      ensures this.name == name && this.plan == plan
      ensures View() == ChariotState(StartPower, 0, 0) && Valid()
    {
      this.name := name;
      this.plan := plan;
      power := StartPower;
      essence := 0;
      idx := 0;
    }

    /** apply_instruction: saturating power change, essence grows by the new power, index wraps. */
    method ApplyInstruction(i: Instruction)
      requires Valid()
      modifies this
      ensures Valid() && View() == Apply(old(View()), i, |plan|)
    {
      match i {
        case AddOne => power := power + 1;
        case SubtractOne => power := if power == 0 then 0 else power - 1;
        case Maintain =>
      }
      essence := essence + power;
      idx := (idx + 1) % |plan|;
    }
  }

  class World {
    var chariots: seq<Chariot>
    var currentSegment: nat
    const track: Option<seq<Instruction>>

    /** Distinct chariots, each valid, and a segment inside the track. */
    ghost predicate Valid()
      reads this, chariots
    {
      && (forall i, j :: 0 <= i < j < |chariots| ==> chariots[i] != chariots[j])
      && (forall k :: 0 <= k < |chariots| ==> chariots[k].Valid())
      && SegmentOk(track, currentSegment)
    }

    /** A world over the given chariots, at the first segment. */
    constructor FromParts(chariots: seq<Chariot>, track: Option<seq<Instruction>>)
      requires track.Some? ==> |track.value| > 0
      ensures this.chariots == chariots && this.track == track && currentSegment == 0
    {
      this.chariots := chariots;
      this.track := track;
      currentSegment := 0;
    }

    /** Each chariot's name with the essence it has collected, in the order of the chariots. */
    method Results() returns (rs: seq<Result>)
      ensures |rs| == |chariots|
      ensures forall k :: 0 <= k < |rs| ==> rs[k] == (chariots[k].name, chariots[k].essence)
    {
      rs := [];
      for k := 0 to |chariots|
        invariant |rs| == k
        invariant forall i :: 0 <= i < k ==> rs[i] == (chariots[i].name, chariots[i].essence)
      {
        rs := rs + [(chariots[k].name, chariots[k].essence)];
      }
    }

    /** Vec::extend: more chariots after the present ones. */
    method AddChariots(more: seq<Chariot>)
      modifies this
      ensures chariots == old(chariots) + more && currentSegment == old(currentSegment)
    {
      chariots := chariots + more;
    }

    /**
     * run_step: every chariot runs the action the current segment dictates
     * ('+' or '-' of the track, else its own plan's next action); then the
     * segment moves on.
     */
    method RunStep()
      requires Valid()
      modifies this, chariots
      ensures Valid() && chariots == old(chariots)
      ensures currentSegment == NextSegment(old(currentSegment), track)
      ensures forall k :: 0 <= k < |chariots| ==>
                chariots[k].View() == StepChariot(old(chariots[k].View()), chariots[k].plan, track, old(currentSegment))
    {
      var action := TrackAction(track, currentSegment);
      ghost var cs := chariots;
      ghost var views := seq(|cs|, k requires 0 <= k < |cs| reads cs => cs[k].View());
      for j := 0 to |chariots|
        invariant Valid() && chariots == old(chariots) && currentSegment == old(currentSegment)
        invariant forall k :: 0 <= k < j ==>
                    chariots[k].View() == StepChariot(views[k], chariots[k].plan, track, currentSegment)
        invariant forall k :: j <= k < |chariots| ==> chariots[k].View() == views[k]
      {
        var c := chariots[j];
        var toExecute := Executed(action, c.plan, c.idx);
        c.ApplyInstruction(toExecute);
      }
      currentSegment := currentSegment + 1;
      if track.Some? {
        currentSegment := currentSegment % |track.value|;
      }
    }

    /** run_steps: amount steps; every chariot ends where amount steps of the race take it. */
    method RunSteps(amount: nat)
      requires Valid()
      modifies this, chariots
      ensures Valid() && chariots == old(chariots)
      ensures currentSegment == SegmentAfter(old(currentSegment), track, amount)
      ensures forall k :: 0 <= k < |chariots| ==>
                chariots[k].View()
                == ChariotAfter(old(chariots[k].View()), chariots[k].plan, track, old(currentSegment), amount)
    {
      for n := 0 to amount
        invariant Valid() && chariots == old(chariots)
        invariant currentSegment == SegmentAfter(old(currentSegment), track, n)
        invariant forall k :: 0 <= k < |chariots| ==>
                    chariots[k].View()
                    == ChariotAfter(old(chariots[k].View()), chariots[k].plan, track, old(currentSegment), n)
      {
        RunStep();
      }
    }

    /** run_loop: one lap of the track, which brings the segment back to where it was. */
    method RunLoop()
      requires Valid() && track.Some?
      modifies this, chariots
      ensures Valid() && chariots == old(chariots)
      ensures currentSegment == old(currentSegment)
      ensures forall k :: 0 <= k < |chariots| ==>
                chariots[k].View()
                == ChariotAfter(old(chariots[k].View()), chariots[k].plan, track, old(currentSegment), |track.value|)
    {
      var len := |track.value|;
      LapReturnsSegment(currentSegment, track.value);
      RunSteps(len);
    }
  }

  /** Steps of a chariot compose: a + b steps are a steps, then b more from the segment reached. */
  lemma {:induction false} ChariotAfterAdd(st: ChariotState, plan: seq<Instruction>, track: Option<seq<Instruction>>,
                                           segment: nat, a: nat, b: nat)
    requires |plan| > 0 && st.idx < |plan| && SegmentOk(track, segment)
    ensures ChariotAfter(st, plan, track, segment, a + b)
            == ChariotAfter(ChariotAfter(st, plan, track, segment, a), plan, track, SegmentAfter(segment, track, a), b)
  {
    if b > 0 {
      ChariotAfterAdd(st, plan, track, segment, a, b - 1);
      SegmentAfterAdd(segment, track, a, b - 1);
    }
  }

  /** Whole laps of the track leave the segment where it was. */
  lemma {:induction false} LapsReturnSegment(segment: nat, t: seq<Instruction>, laps: nat)
    requires segment < |t|
    ensures SegmentAfter(segment, Some(t), laps * |t|) == segment
  {
    if laps > 0 {
      LapsReturnSegment(segment, t, laps - 1);
      assert laps * |t| == (laps - 1) * |t| + |t|;
      SegmentAfterAdd(segment, Some(t), (laps - 1) * |t|, |t|);
      LapReturnsSegment(segment, t);
    }
  }

  /** Lap i + 1 starts from the segment lap i ended on, the first one. */
  lemma OneMoreLap(st: ChariotState, plan: seq<Instruction>, track: Option<seq<Instruction>>, i: nat, done: nat)
    requires |plan| > 0 && st.idx < |plan| && track.Some? && |track.value| > 0 && done == i * |track.value|
    ensures ChariotAfter(st, plan, track, 0, done + |track.value|)
            == ChariotAfter(ChariotAfter(st, plan, track, 0, done), plan, track, 0, |track.value|)
  {
    var t := track.value;
    ChariotAfterAdd(st, plan, Some(t), 0, done, |t|);
    LapsReturnSegment(0, t, i);
  }

  /** Lap i + 1 of every entry's chariot starts where lap i ended. */
  lemma EveryoneOneMoreLap(entries: seq<Entry>, track: Option<seq<Instruction>>, i: nat, done: nat)
    requires PlansNonEmpty(entries) && track.Some? && |track.value| > 0 && done == i * |track.value|
    ensures forall k :: 0 <= k < |entries| ==>
      ChariotAfter(Fresh, entries[k].1, track, 0, done + |track.value|)
      == ChariotAfter(ChariotAfter(Fresh, entries[k].1, track, 0, done), entries[k].1, track, 0, |track.value|)
  {
    forall k | 0 <= k < |entries|
      ensures ChariotAfter(Fresh, entries[k].1, track, 0, done + |track.value|)
              == ChariotAfter(ChariotAfter(Fresh, entries[k].1, track, 0, done), entries[k].1, track, 0, |track.value|)
    {
      OneMoreLap(Fresh, entries[k].1, track, i, done);
    }
  }

  /** The state every chariot starts the race in. */
  const Fresh: ChariotState := ChariotState(StartPower, 0, 0)

  /** A chariot's name and plan, as its line gives them. */
  type Entry = (string, seq<Instruction>)

  /** One result: a chariot's name and the essence it collected. */
  type Result = (string, nat)

  /** Every entry has a plan to follow. */
  predicate PlansNonEmpty(entries: seq<Entry>)
  {
    forall k :: 0 <= k < |entries| ==> |entries[k].1| > 0
  }

  /** The results of a race of n steps from the first segment: names and essence collected. */
  function Race(entries: seq<Entry>, track: Option<seq<Instruction>>, n: nat): (r: seq<Result>)
    requires PlansNonEmpty(entries) && SegmentOk(track, 0)
    ensures |r| == |entries|
    ensures forall k :: 0 <= k < |entries| ==> r[k].0 == entries[k].0
  {
    seq(|entries|, k requires 0 <= k < |entries| =>
      (entries[k].0, ChariotAfter(Fresh, entries[k].1, track, 0, n).essence))
  }

  /** Chariots that are new, pairwise distinct and valid, with the given names and plans, at the start. */
  ghost predicate StartingFrom(cs: seq<Chariot>, entries: seq<Entry>)
    reads cs
  {
    && |cs| == |entries|
    && (forall i, j :: 0 <= i < j < |cs| ==> cs[i] != cs[j])
    && forall k :: 0 <= k < |cs| ==>
         cs[k].name == entries[k].0 && cs[k].plan == entries[k].1 && cs[k].Valid() && cs[k].View() == Fresh
  }

  /** `lines().map(|l| l.parse().unwrap())` after parsing: one new chariot per entry. */
  method NewChariots(entries: seq<Entry>) returns (cs: seq<Chariot>)
    requires PlansNonEmpty(entries)
    ensures StartingFrom(cs, entries)
    ensures forall k :: 0 <= k < |cs| ==> fresh(cs[k])
  {
    cs := [];
    for k := 0 to |entries|
      invariant StartingFrom(cs, entries[..k])
      invariant forall i :: 0 <= i < |cs| ==> fresh(cs[i])
    {
      var c := new Chariot.FromParts(entries[k].0, entries[k].1);
      cs := cs + [c];
    }
    assert entries[..|entries|] == entries;
  }

  /**
   * The ten-lap (part 2) and 2024-lap (part 3) loops: laps run_loop calls
   * from the first segment take every chariot laps times round the track.
   */
  method RunLaps(w: World, laps: nat, ghost entries: seq<Entry>)
    requires w.Valid() && w.track.Some? && w.currentSegment == 0 && PlansNonEmpty(entries)
    requires StartingFrom(w.chariots, entries)
    modifies w, w.chariots
    ensures w.Valid() && w.chariots == old(w.chariots) && w.currentSegment == 0
    ensures forall k :: 0 <= k < |entries| ==>
              w.chariots[k].View() == ChariotAfter(Fresh, entries[k].1, w.track, 0, laps * |w.track.value|)
  {
    var L := |w.track.value|;
    ghost var done: nat := 0;
    for i := 0 to laps
      invariant w.Valid() && w.chariots == old(w.chariots) && w.currentSegment == 0
      invariant done == i * L
      invariant forall k :: 0 <= k < |entries| ==>
                  w.chariots[k].View() == ChariotAfter(Fresh, entries[k].1, w.track, 0, done)
    {
      w.RunLoop();
      EveryoneOneMoreLap(entries, w.track, i, done);
      MulSucc(i, L);
      done := done + L;
    }
  }

  /** Inserts x into a list ordered by essence, highest first, after every entry with at least its essence. */
  function Insert(x: Result, r: seq<Result>): (s: seq<Result>)
    ensures |s| == |r| + 1
  {
    if r == [] then [x]
    else if r[0].1 >= x.1 then [r[0]] + Insert(x, r[1..])
    else [x] + r
  }

  /** `sorted_by(|a, b| b.1.cmp(&a.1))`: a stable sort by essence, highest first. */
  function Rank(s: seq<Result>): (r: seq<Result>)
    ensures |r| == |s|
  {
    if s == [] then [] else Insert(s[|s| - 1], Rank(s[..|s| - 1]))
  }

  predicate HighestFirst(s: seq<Result>)
  {
    forall i, j :: 0 <= i < j < |s| ==> s[i].1 >= s[j].1
  }

  /** The results with essence e, in their order. */
  function WithEssence(s: seq<Result>, e: nat): seq<Result>
  {
    if s == [] then [] else (if s[0].1 == e then [s[0]] else []) + WithEssence(s[1..], e)
  }

  lemma {:induction false} WithEssenceAppend(s: seq<Result>, t: seq<Result>, e: nat)
    ensures WithEssence(s + t, e) == WithEssence(s, e) + WithEssence(t, e)
    decreases |s|
  {
    if s == [] {
      assert s + t == t;
    } else {
      var head := if s[0].1 == e then [s[0]] else [];
      WithEssenceAppend(s[1..], t, e);
      assert (s + t)[0] == s[0] && (s + t)[1..] == s[1..] + t;
      assert WithEssence(s + t, e) == head + WithEssence(s[1..] + t, e);
      assert head + (WithEssence(s[1..], e) + WithEssence(t, e)) == (head + WithEssence(s[1..], e)) + WithEssence(t, e);
    }
  }

  /** Nothing in a list with essence below e has essence e. */
  lemma {:induction false} WithEssenceNone(s: seq<Result>, e: nat)
    requires forall i :: 0 <= i < |s| ==> s[i].1 < e
    ensures WithEssence(s, e) == []
    decreases |s|
  {
    if s != [] {
      WithEssenceNone(s[1..], e);
    }
  }

  /** Insertion adds exactly x. */
  lemma {:induction false} InsertMultiset(x: Result, r: seq<Result>)
    ensures multiset(Insert(x, r)) == multiset(r) + multiset{x}
    decreases |r|
  {
    if r != [] && r[0].1 >= x.1 {
      InsertMultiset(x, r[1..]);
      assert r == [r[0]] + r[1..];
    }
  }

  /** Insertion brings in no essence above a bound that x and r keep to. */
  lemma {:induction false} InsertBounded(x: Result, r: seq<Result>, b: nat)
    requires x.1 <= b && forall i :: 0 <= i < |r| ==> r[i].1 <= b
    ensures forall i :: 0 <= i < |Insert(x, r)| ==> Insert(x, r)[i].1 <= b
    decreases |r|
  {
    if r != [] && r[0].1 >= x.1 {
      InsertBounded(x, r[1..], b);
    }
  }

  /** Insertion into a list ordered highest first keeps it ordered. */
  lemma {:induction false} InsertSorted(x: Result, r: seq<Result>)
    requires HighestFirst(r)
    ensures HighestFirst(Insert(x, r))
    decreases |r|
  {
    if r != [] && r[0].1 >= x.1 {
      var rest := Insert(x, r[1..]);
      InsertSorted(x, r[1..]);
      InsertBounded(x, r[1..], r[0].1);
      assert Insert(x, r) == [r[0]] + rest;
    }
  }

  /** Insertion puts x after every entry of its own essence. */
  lemma {:induction false} InsertWithEssence(x: Result, r: seq<Result>, e: nat)
    requires HighestFirst(r)
    ensures WithEssence(Insert(x, r), e) == WithEssence(r, e) + (if x.1 == e then [x] else [])
    decreases |r|
  {
    if r == [] {
      WithEssenceCons(x, [], e);
    } else if r[0].1 >= x.1 {
      HighestFirstTail(r);
      InsertWithEssence(x, r[1..], e);
      InsertBehind(x, r, e);
    } else {
      InsertInFront(x, r, e);
    }
  }

  /** When x goes behind the head, the head's entry comes first and the rest follows from the tail. */
  lemma InsertBehind(x: Result, r: seq<Result>, e: nat)
    requires r != [] && r[0].1 >= x.1
    requires WithEssence(Insert(x, r[1..]), e) == WithEssence(r[1..], e) + (if x.1 == e then [x] else [])
    ensures WithEssence(Insert(x, r), e) == WithEssence(r, e) + (if x.1 == e then [x] else [])
  {
    var rest := Insert(x, r[1..]);
    assert Insert(x, r) == [r[0]] + rest;
    WithEssenceCons(r[0], rest, e);
    WithEssenceCons(r[0], r[1..], e);
    assert r == [r[0]] + r[1..];
  }

  /** When x goes in front, nothing after it has its essence. */
  lemma InsertInFront(x: Result, r: seq<Result>, e: nat)
    requires HighestFirst(r) && r != [] && r[0].1 < x.1
    ensures WithEssence(Insert(x, r), e) == WithEssence(r, e) + (if x.1 == e then [x] else [])
  {
    assert Insert(x, r) == [x] + r;
    WithEssenceCons(x, r, e);
    if x.1 == e {
      HighestFirstTail(r);
      WithEssenceNone(r, e);
    }
  }

  /** WithEssence of a list with one more entry in front. */
  lemma WithEssenceCons(a: Result, s: seq<Result>, e: nat)
    ensures WithEssence([a] + s, e) == (if a.1 == e then [a] else []) + WithEssence(s, e)
  {
    assert ([a] + s)[1..] == s;
  }

  /** The tail of a list ordered highest first is ordered, and no entry beats the head. */
  lemma HighestFirstTail(r: seq<Result>)
    requires HighestFirst(r) && r != []
    ensures HighestFirst(r[1..])
    ensures forall i :: 0 <= i < |r| ==> r[i].1 <= r[0].1
  {
    assert forall i :: 0 <= i < |r| - 1 ==> r[1..][i] == r[i + 1];
  }

  /** Rank orders by essence, highest first. */
  lemma {:induction false} RankSorted(s: seq<Result>)
    ensures HighestFirst(Rank(s))
    decreases |s|
  {
    if s != [] {
      RankSorted(s[..|s| - 1]);
      InsertSorted(s[|s| - 1], Rank(s[..|s| - 1]));
    }
  }

  /** Rank is a permutation of the results. */
  lemma {:induction false} RankPermutation(s: seq<Result>)
    ensures multiset(Rank(s)) == multiset(s)
    decreases |s|
  {
    if s != [] {
      RankPermutation(s[..|s| - 1]);
      InsertMultiset(s[|s| - 1], Rank(s[..|s| - 1]));
      assert s == s[..|s| - 1] + [s[|s| - 1]];
    }
  }

  /** Rank is stable: the results of equal essence keep their order. */
  lemma {:induction false} RankStable(s: seq<Result>, e: nat)
    ensures WithEssence(Rank(s), e) == WithEssence(s, e)
    decreases |s|
  {
    if s != [] {
      var init, last := s[..|s| - 1], s[|s| - 1];
      RankStable(init, e);
      RankSorted(init);
      InsertWithEssence(last, Rank(init), e);
      assert s == init + [last];
      WithEssenceAppend(init, [last], e);
    }
  }

  /** The names of the results, in order. */
  function Names(rs: seq<Result>): (r: seq<string>)
    ensures |r| == |rs| && forall k :: 0 <= k < |rs| ==> r[k] == rs[k].0
  {
    seq(|rs|, k requires 0 <= k < |rs| => rs[k].0)
  }

  /** Whether every result is named by a single letter, as the chariots of the puzzle are. */
  predicate LetterNames(rs: seq<Result>)
  {
    forall k :: 0 <= k < |rs| ==> |rs[k].0| == 1
  }

  /** Ranking keeps the names, so single-letter names stay single letters. */
  lemma RankLetters(rs: seq<Result>)
    requires LetterNames(rs)
    ensures LetterNames(Rank(rs))
  {
    RankPermutation(rs);
    forall k | 0 <= k < |Rank(rs)|
      ensures |Rank(rs)[k].0| == 1
    {
      assert Rank(rs)[k] in multiset(rs);
    }
  }

  /** Single letters joined without a separator spell one letter per name. */
  lemma {:induction false} JoinLetters(ns: seq<string>)
    requires forall k :: 0 <= k < |ns| ==> |ns[k]| == 1
    ensures |Join(ns, "")| == |ns|
    ensures forall k :: 0 <= k < |ns| ==> Join(ns, "")[k] == ns[k][0]
    decreases |ns|
  {
    if |ns| > 1 {
      JoinLetters(ns[1..]);
    }
  }

  /**
   * The answer of parts 1 and 2: the names, highest essence first, joined
   * together; with single-letter names, letter k names the chariot ranked k.
   */
  function Ranking(rs: seq<Result>): (r: string)
    ensures LetterNames(rs) ==> |r| == |rs| && forall k :: 0 <= k < |rs| ==> [r[k]] == Rank(rs)[k].0
  {
    if LetterNames(rs) then
      RankLetters(rs);
      JoinLetters(Names(Rank(rs)));
      Join(Names(Rank(rs)), "")
    else
      Join(Names(Rank(rs)), "")
  }

  /** How many results have more essence than bar. */
  function CountAbove(rs: seq<Result>, bar: nat): (r: nat)
    ensures r <= |rs|
    ensures r == 0 <==> forall k :: 0 <= k < |rs| ==> rs[k].1 <= bar
    ensures r == |rs| <==> forall k :: 0 <= k < |rs| ==> rs[k].1 > bar
  {
    if rs == [] then 0
    else (if rs[0].1 > bar then 1 else 0) + CountAbove(rs[1..], bar)
  }

  /** Chariot::from_str's tokens: '+', '-' and '='; any other token panics. */
  function ParseAction(token: string): (r: Option<Instruction>)
    ensures r.Some? <==> token in {"+", "-", "="}
    ensures r.Some? ==> token == [ToChar(r.value)]
  {
    if token == "+" then Some(AddOne)
    else if token == "-" then Some(SubtractOne)
    else if token == "=" then Some(Maintain)
    else None
  }

  function ParseActions(tokens: seq<string>): (r: Option<seq<Instruction>>)
    ensures r.Some? <==> forall k :: 0 <= k < |tokens| ==> ParseAction(tokens[k]).Some?
    ensures r.Some? ==> |r.value| == |tokens| &&
                        forall k :: 0 <= k < |tokens| ==> Some(r.value[k]) == ParseAction(tokens[k])
  {
    if tokens == [] then Some([])
    else match (ParseAction(tokens[0]), ParseActions(tokens[1..]))
      case (Some(i), Some(rest)) => Some([i] + rest)
      case _ => None
  }

  /**
   * Chariot::from_str: the name before the first ':', the plan from the
   * comma-separated tokens after it (up to a second ':', if any). None where
   * the source panics: no ':' at all, or a token that is not an action.
   */
  function ParseChariot(line: string): (r: Option<Entry>)
    ensures r.Some? ==> |r.value.1| > 0
  {
    var parts := Split(line, ":");
    if |parts| < 2 then None
    else match ParseActions(Split(parts[1], ","))
      case None => None
      case Some(plan) => Some((parts[0], plan))
  }

  function ParseChariots(lines: seq<string>): (r: Option<seq<Entry>>)
    ensures r.Some? ==> |r.value| == |lines| && PlansNonEmpty(r.value)
  {
    if lines == [] then Some([])
    else match (ParseChariot(lines[0]), ParseChariots(lines[1..]))
      case (Some(e), Some(rest)) => Some([e] + rest)
      case _ => None
  }

  /**
   * Day7World::from_str: the chariots from the lines before the first blank
   * line, and the track from the drawing after it, if there is one. None
   * where the source panics or the track's walk does not close within fuel
   * steps.
   */
  function WorldSpec(input: string, fuel: nat): (r: Option<(seq<Entry>, Option<seq<Instruction>>)>)
    ensures r.Some? ==> PlansNonEmpty(r.value.0) && SegmentOk(r.value.1, 0)
  {
    var blocks := Split(input, "\n\n");
    match ParseChariots(Lines(blocks[0]))
    case None => None
    case Some(entries) =>
      if |blocks| < 2 then Some((entries, None))
      else match TrackSpec(blocks[1], fuel)
        case None => None
        case Some(t) => Some((entries, Some(t)))
  }

  /** Day7World::from_str: the world of WorldSpec, every chariot at the start, the first segment. */
  method ParseWorld(input: string, ghost fuel: nat) returns (w: World)
    requires WorldSpec(input, fuel).Some?
    ensures fresh(w) && w.Valid() && w.currentSegment == 0 && w.track == WorldSpec(input, fuel).value.1
    ensures StartingFrom(w.chariots, WorldSpec(input, fuel).value.0)
    ensures forall k :: 0 <= k < |w.chariots| ==> fresh(w.chariots[k])
  {
    var blocks := Split(input, "\n\n");
    var lines := Lines(blocks[0]);
    var entries := ParseChariots(lines).value;
    var cs := NewChariots(entries);
    var track: Option<seq<Instruction>> := None;
    if |blocks| >= 2 {
      var t := TrackFromAscii(blocks[1], fuel);
      track := Some(t);
    }
    w := new World.FromParts(cs, track);
  }

  /** Part 1: ten steps (on the track, if the input draws one), then the ranking. */
  method Part1(input: string, ghost fuel: nat) returns (answer: string)
    requires WorldSpec(input, fuel).Some?
    ensures answer == Ranking(Race(WorldSpec(input, fuel).value.0, WorldSpec(input, fuel).value.1, 10))
  {
    var w := ParseWorld(input, fuel);
    ghost var entries := WorldSpec(input, fuel).value.0;
    w.RunSteps(10);
    var rs := w.Results();
    assert rs == Race(entries, w.track, 10);
    answer := Join(Names(Rank(rs)), "");
  }

  /** Part 2: ten laps of the track, then the ranking. */
  method Part2(input: string, ghost fuel: nat) returns (answer: string)
    requires WorldSpec(input, fuel).Some? && WorldSpec(input, fuel).value.1.Some?
    ensures var (entries, track) := WorldSpec(input, fuel).value;
            answer == Ranking(Race(entries, track, 10 * |track.value|))
  {
    var w := ParseWorld(input, fuel);
    ghost var entries := WorldSpec(input, fuel).value.0;
    RunLaps(w, 10, entries);
    var rs := w.Results();
    assert rs == Race(entries, w.track, 10 * |w.track.value|);
    answer := Join(Names(Rank(rs)), "");
  }

  /** New chariots, distinct from those of the world, join the race after them. */
  method Enter(w: World, cs: seq<Chariot>, ghost entries: seq<Entry>, ghost more: seq<Entry>)
    requires w.Valid() && w.currentSegment == 0
    requires StartingFrom(w.chariots, entries) && StartingFrom(cs, more)
    requires forall i, j :: 0 <= i < |w.chariots| && 0 <= j < |cs| ==> w.chariots[i] != cs[j]
    modifies w
    ensures w.Valid() && w.currentSegment == 0 && w.chariots == old(w.chariots) + cs
    ensures StartingFrom(w.chariots, entries + more)
  {
    w.AddChariots(cs);
  }

  /** The entries part 3 appends: one chariot named "S" per plan, in the given order. */
  function Strategies(order: seq<seq<Instruction>>): (r: seq<Entry>)
    requires forall k :: 0 <= k < |order| ==> |order[k]| > 0
    ensures |r| == |order| && PlansNonEmpty(r)
    ensures forall k :: 0 <= k < |order| ==> r[k] == ("S", order[k])
  {
    seq(|order|, k requires 0 <= k < |order| => ("S", order[k]))
  }

  /** Every plan has actions to follow. */
  lemma PlansHaveActions(order: seq<seq<Instruction>>)
    requires forall k :: 0 <= k < |order| ==> Day7Plans.IsPlan(order[k])
    ensures forall k :: 0 <= k < |order| ==> |order[k]| > 0
  {
    forall k | 0 <= k < |order|
      ensures |order[k]| > 0
    {
      assert Day7Plans.IsPlan(order[k]);
    }
  }

  /** The field of part 3: the parsed chariots, then one "S" per plan. */
  function Field(entries: seq<Entry>, order: seq<seq<Instruction>>): (r: seq<Entry>)
    requires PlansNonEmpty(entries) && forall k :: 0 <= k < |order| ==> Day7Plans.IsPlan(order[k])
    ensures PlansNonEmpty(r) && |r| == |entries| + |order|
    ensures r[..|entries|] == entries && forall k :: 0 <= k < |order| ==> r[|entries| + k] == ("S", order[k])
  {
    PlansHaveActions(order);
    var r := entries + Strategies(order);
    assert forall k :: |entries| <= k < |r| ==> r[k] == Strategies(order)[k - |entries|];
    r
  }

  /** Lists the plans of a set in some order (the order a HashSet yields them in is not fixed). */
  method Listing(plans: set<seq<Instruction>>) returns (order: seq<seq<Instruction>>)
    ensures forall p :: p in plans ==> p in order
    ensures forall k :: 0 <= k < |order| ==> order[k] in plans
    ensures forall i, j :: 0 <= i < j < |order| ==> order[i] != order[j]
    ensures |order| == |plans|
  {
    var remaining := plans;
    order := [];
    while remaining != {}
      invariant forall p :: p in plans <==> p in remaining || p in order
      invariant forall k :: 0 <= k < |order| ==> order[k] !in remaining
      invariant forall i, j :: 0 <= i < j < |order| ==> order[i] != order[j]
      invariant |order| + |remaining| == |plans|
      decreases |remaining|
    {
      var p :| p in remaining;
      order := order + [p];
      remaining := remaining - {p};
    }
  }

  /**
   * Part 3: a chariot "S" for each of the 9240 plans joins the parsed ones;
   * after 2024 laps, the answer counts the chariots with more essence than
   * the first one. The order of the plans is the one the set is listed in.
   */
  method Part3(input: string, ghost fuel: nat) returns (answer: string, ghost order: seq<seq<Instruction>>)
    requires WorldSpec(input, fuel).Some? && WorldSpec(input, fuel).value.1.Some?
    ensures |order| == 9240
    ensures forall k :: 0 <= k < |order| ==> Day7Plans.IsPlan(order[k])
    ensures forall p :: Day7Plans.IsPlan(p) ==> p in order
    ensures forall i, j :: 0 <= i < j < |order| ==> order[i] != order[j]
    ensures var (entries, track) := WorldSpec(input, fuel).value;
            var rs := Race(Field(entries, order), track, 2024 * |track.value|);
            |rs| > 0 && answer == ShowNat(CountAbove(rs, rs[0].1))
  {
    var w, listed := Enlist(input, fuel);
    order := listed;
    ghost var all := Field(WorldSpec(input, fuel).value.0, listed);
    RunLaps(w, 2024, all);
    var rs := w.Results();
    assert rs == Race(all, w.track, 2024 * |w.track.value|);
    answer := ShowNat(CountAbove(rs, rs[0].1));
  }

  /** The world of part 3 before the race: the parsed chariots, then an "S" for every plan, listed in some order. */
  method Enlist(input: string, ghost fuel: nat) returns (w: World, order: seq<seq<Instruction>>)
    requires WorldSpec(input, fuel).Some?
    ensures |order| == 9240
    ensures forall k :: 0 <= k < |order| ==> Day7Plans.IsPlan(order[k])
    ensures forall p :: Day7Plans.IsPlan(p) ==> p in order
    ensures forall i, j :: 0 <= i < j < |order| ==> order[i] != order[j]
    ensures w.Valid() && w.currentSegment == 0 && w.track == WorldSpec(input, fuel).value.1
    ensures StartingFrom(w.chariots, Field(WorldSpec(input, fuel).value.0, order))
    ensures fresh(w) && forall k :: 0 <= k < |w.chariots| ==> fresh(w.chariots[k])
  {
    w := ParseWorld(input, fuel);
    ghost var entries := WorldSpec(input, fuel).value.0;
    var cs;
    order, cs := Contenders();
    Enter(w, cs, entries, Strategies(order));
    assert entries + Strategies(order) == Field(entries, order);
  }

  /** An "S" chariot for every plan, in the order the plans are listed. */
  method Contenders() returns (order: seq<seq<Instruction>>, cs: seq<Chariot>)
    ensures |order| == 9240
    ensures forall k :: 0 <= k < |order| ==> Day7Plans.IsPlan(order[k]) && |order[k]| > 0
    ensures forall p :: Day7Plans.IsPlan(p) ==> p in order
    ensures forall i, j :: 0 <= i < j < |order| ==> order[i] != order[j]
    ensures StartingFrom(cs, Strategies(order))
    ensures forall k :: 0 <= k < |cs| ==> fresh(cs[k])
  {
    var plans := Day7Plans.GeneratePossiblePlans();
    order := Listing(plans);
    PlansHaveActions(order);
    var strategies := Strategies(order);
    cs := NewChariots(strategies);
  }

  /** A chariot's state after n actions of its own plan, as happens when there is no track. */
  function OnPlan(st: ChariotState, plan: seq<Instruction>, n: nat): (r: ChariotState)
    requires |plan| > 0 && st.idx < |plan|
    ensures r.idx < |plan|
  {
    if n == 0 then st
    else
      var prev := OnPlan(st, plan, n - 1);
      Apply(prev, plan[prev.idx], |plan|)
  }

  /** Without a track every step runs the chariot's own plan. */
  lemma {:induction false} NoTrackFollowsPlan(st: ChariotState, plan: seq<Instruction>, segment: nat, n: nat)
    requires |plan| > 0 && st.idx < |plan|
    ensures ChariotAfter(st, plan, None, segment, n) == OnPlan(st, plan, n)
  {
    if n > 0 {
      NoTrackFollowsPlan(st, plan, segment, n - 1);
    }
  }

  /** The four chariots of the example, without a track. */
  function ExampleEntries(): (r: seq<Entry>)
    ensures PlansNonEmpty(r)
  {
    [ ("A", [AddOne, SubtractOne, Maintain, Maintain]),
      ("B", [AddOne, Maintain, SubtractOne, AddOne]),
      ("C", [Maintain, SubtractOne, AddOne, AddOne]),
      ("D", [Maintain, Maintain, Maintain, AddOne]) ]
  }

  /** Chariot A of the example collects 103 essence in ten steps. */
  lemma ExampleA(plan: seq<Instruction>)
    requires plan == ExampleEntries()[0].1
    ensures OnPlan(Fresh, plan, 10).essence == 103
  {
    assert OnPlan(Fresh, plan, 1) == ChariotState(11, 11, 1);
    assert OnPlan(Fresh, plan, 2) == ChariotState(10, 21, 2);
    assert OnPlan(Fresh, plan, 3) == ChariotState(10, 31, 3);
    assert OnPlan(Fresh, plan, 4) == ChariotState(10, 41, 0);
    assert OnPlan(Fresh, plan, 5) == ChariotState(11, 52, 1);
    assert OnPlan(Fresh, plan, 6) == ChariotState(10, 62, 2);
    assert OnPlan(Fresh, plan, 7) == ChariotState(10, 72, 3);
    assert OnPlan(Fresh, plan, 8) == ChariotState(10, 82, 0);
    assert OnPlan(Fresh, plan, 9) == ChariotState(11, 93, 1);
    assert OnPlan(Fresh, plan, 10) == ChariotState(10, 103, 2);
  }

  /** Chariot B of the example collects 116 essence in ten steps. */
  lemma ExampleB(plan: seq<Instruction>)
    requires plan == ExampleEntries()[1].1
    ensures OnPlan(Fresh, plan, 10).essence == 116
  {
    assert OnPlan(Fresh, plan, 1) == ChariotState(11, 11, 1);
    assert OnPlan(Fresh, plan, 2) == ChariotState(11, 22, 2);
    assert OnPlan(Fresh, plan, 3) == ChariotState(10, 32, 3);
    assert OnPlan(Fresh, plan, 4) == ChariotState(11, 43, 0);
    assert OnPlan(Fresh, plan, 5) == ChariotState(12, 55, 1);
    assert OnPlan(Fresh, plan, 6) == ChariotState(12, 67, 2);
    assert OnPlan(Fresh, plan, 7) == ChariotState(11, 78, 3);
    assert OnPlan(Fresh, plan, 8) == ChariotState(12, 90, 0);
    assert OnPlan(Fresh, plan, 9) == ChariotState(13, 103, 1);
    assert OnPlan(Fresh, plan, 10) == ChariotState(13, 116, 2);
  }

  /** Chariot C of the example collects 107 essence in ten steps. */
  lemma ExampleC(plan: seq<Instruction>)
    requires plan == ExampleEntries()[2].1
    ensures OnPlan(Fresh, plan, 10).essence == 107
  {
    assert OnPlan(Fresh, plan, 1) == ChariotState(10, 10, 1);
    assert OnPlan(Fresh, plan, 2) == ChariotState(9, 19, 2);
    assert OnPlan(Fresh, plan, 3) == ChariotState(10, 29, 3);
    assert OnPlan(Fresh, plan, 4) == ChariotState(11, 40, 0);
    assert OnPlan(Fresh, plan, 5) == ChariotState(11, 51, 1);
    assert OnPlan(Fresh, plan, 6) == ChariotState(10, 61, 2);
    assert OnPlan(Fresh, plan, 7) == ChariotState(11, 72, 3);
    assert OnPlan(Fresh, plan, 8) == ChariotState(12, 84, 0);
    assert OnPlan(Fresh, plan, 9) == ChariotState(12, 96, 1);
    assert OnPlan(Fresh, plan, 10) == ChariotState(11, 107, 2);
  }

  /** Chariot D of the example collects 110 essence in ten steps. */
  lemma ExampleD(plan: seq<Instruction>)
    requires plan == ExampleEntries()[3].1
    ensures OnPlan(Fresh, plan, 10).essence == 110
  {
    assert OnPlan(Fresh, plan, 1) == ChariotState(10, 10, 1);
    assert OnPlan(Fresh, plan, 2) == ChariotState(10, 20, 2);
    assert OnPlan(Fresh, plan, 3) == ChariotState(10, 30, 3);
    assert OnPlan(Fresh, plan, 4) == ChariotState(11, 41, 0);
    assert OnPlan(Fresh, plan, 5) == ChariotState(11, 52, 1);
    assert OnPlan(Fresh, plan, 6) == ChariotState(11, 63, 2);
    assert OnPlan(Fresh, plan, 7) == ChariotState(11, 74, 3);
    assert OnPlan(Fresh, plan, 8) == ChariotState(12, 86, 0);
    assert OnPlan(Fresh, plan, 9) == ChariotState(12, 98, 1);
    assert OnPlan(Fresh, plan, 10) == ChariotState(12, 110, 2);
  }

  /** Without a track, ten steps of a race give each chariot what its own plan collects. */
  lemma RaceWithoutTrack(es: seq<Entry>, k: nat)
    requires PlansNonEmpty(es) && k < |es|
    ensures Race(es, None, 10)[k] == (es[k].0, OnPlan(Fresh, es[k].1, 10).essence)
  {
    NoTrackFollowsPlan(Fresh, es[k].1, 0, 10);
  }

  lemma FourResults(rs: seq<Result>, a: Result, b: Result, c: Result, d: Result)
    requires |rs| == 4 && rs[0] == a && rs[1] == b && rs[2] == c && rs[3] == d
    ensures rs == [a, b, c, d]
  {
  }

  /** The example's results, ranked. */
  lemma ExampleRank(rs: seq<Result>)
    requires rs == [("A", 103), ("B", 116), ("C", 107), ("D", 110)]
    ensures Rank(rs) == [("B", 116), ("D", 110), ("C", 107), ("A", 103)]
  {
    assert rs[..0] == [];
    assert Rank(rs[..1]) == [("A", 103)];
    assert rs[..2][..1] == rs[..1];
    assert Rank(rs[..2]) == [("B", 116), ("A", 103)];
    assert rs[..3][..2] == rs[..2];
    assert Insert(("C", 107), [("A", 103)]) == [("C", 107), ("A", 103)];
    assert rs[..3][2] == ("C", 107);
    assert Rank(rs[..3]) == [("B", 116), ("C", 107), ("A", 103)];
    assert Insert(("D", 110), [("C", 107), ("A", 103)]) == [("D", 110), ("C", 107), ("A", 103)];
    assert rs[..4][..3] == rs[..3];
    assert rs[..4] == rs;
  }

  /** The names of the ranked example, joined. */
  lemma ExampleNames(ranked: seq<Result>)
    requires ranked == [("B", 116), ("D", 110), ("C", 107), ("A", 103)]
    ensures Join(Names(ranked), "") == "BDCA"
  {
    var ns := Names(ranked);
    assert ns == ["B", "D", "C", "A"];
    assert ns[1..][1..][1..] == ["A"];
    assert Join(ns[1..][1..], "") == "CA";
    assert Join(ns[1..], "") == "DCA";
  }

  /** After ten steps the example's chariots collect 103, 116, 107 and 110 essence, and rank B, D, C, A. */
  lemma ExampleRanking()
    ensures Ranking(Race(ExampleEntries(), None, 10)) == "BDCA"
  {
    RankingOf(ExampleEntries());
  }

  /** Ten steps of a race of four chariots without a track. */
  lemma FourWithoutTrack(es: seq<Entry>, a: nat, b: nat, c: nat, d: nat)
    requires PlansNonEmpty(es) && |es| == 4
    requires OnPlan(Fresh, es[0].1, 10).essence == a && OnPlan(Fresh, es[1].1, 10).essence == b
    requires OnPlan(Fresh, es[2].1, 10).essence == c && OnPlan(Fresh, es[3].1, 10).essence == d
    ensures Race(es, None, 10) == [(es[0].0, a), (es[1].0, b), (es[2].0, c), (es[3].0, d)]
  {
    RaceWithoutTrack(es, 0);
    RaceWithoutTrack(es, 1);
    RaceWithoutTrack(es, 2);
    RaceWithoutTrack(es, 3);
    FourResults(Race(es, None, 10), (es[0].0, a), (es[1].0, b), (es[2].0, c), (es[3].0, d));
  }

  /** The example's results after ten steps. */
  lemma ExampleResults(es: seq<Entry>)
    requires es == ExampleEntries()
    ensures Race(es, None, 10) == [("A", 103), ("B", 116), ("C", 107), ("D", 110)]
  {
    ExampleA(es[0].1);
    ExampleB(es[1].1);
    ExampleC(es[2].1);
    ExampleD(es[3].1);
    FourWithoutTrack(es, 103, 116, 107, 110);
  }

  lemma RankingOf(es: seq<Entry>)
    requires es == ExampleEntries()
    ensures Ranking(Race(es, None, 10)) == "BDCA"
  {
    ExampleResults(es);
    var rs := Race(es, None, 10);
    ExampleRank(rs);
    ExampleNames(Rank(rs));
  }
}
