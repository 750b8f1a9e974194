/**
 * The cycle-finding iterator adapter (src/utils/cycle_finder.rs).
 *
 * The adapter forwards the elements of an inner iterator and keeps the set
 * of those it has seen; it answers None for an element it has seen before.
 * It keeps no "done" flag, so a call after such a None pulls the next inner
 * element. The inner iterator is modelled as a finite sequence and a cursor
 * into it.
 */
module CycleFinding {
  import opened Wrappers

  /** The set of elements of a sequence. */
  function Elems<T>(s: seq<T>): set<T>
  {
    set x | x in s
  }

  predicate Distinct<T(==)>(s: seq<T>)
  {
    forall i, j :: 0 <= i < j < |s| ==> s[i] != s[j]
  }

  /**
   * What repeated calls of next yield up to the first None, starting from
   * the inner elements s and the seen set seen: s's elements in order, up to
   * the first one already seen or met before in s.
   */
  function PrefixUntilRepeat<T(==)>(s: seq<T>, seen: set<T>): seq<T>
  {
    if s == [] || s[0] in seen then [] else [s[0]] + PrefixUntilRepeat(s[1..], seen + {s[0]})
  }

  /**
   * PrefixUntilRepeat is a prefix of s, repeats nothing, avoids seen, and is
   * the longest such: the element after it, if any, is seen or already in it.
   */
  lemma {:induction false} PrefixUntilRepeatIsLongest<T>(s: seq<T>, seen: set<T>)
    ensures var r := PrefixUntilRepeat(s, seen);
      && |r| <= |s| && r == s[..|r|]
      && Distinct(r)
      && (forall x :: x in r ==> x !in seen)
      && (|r| < |s| ==> s[|r|] in seen || s[|r|] in r)
    decreases |s|
  {
    if s != [] && s[0] !in seen {
      var t := PrefixUntilRepeat(s[1..], seen + {s[0]});
      PrefixUntilRepeatIsLongest(s[1..], seen + {s[0]});
      var r := [s[0]] + t;
      assert r == PrefixUntilRepeat(s, seen);
      forall i, j | 0 <= i < j < |r|
        ensures r[i] != r[j]
      {
        if i > 0 {
          assert r[i] == t[i - 1] && r[j] == t[j - 1];
        } else {
          assert r[j] == t[j - 1] && r[j] in t;
        }
      }
      if |r| < |s| {
        assert s[|r|] == s[1..][|t|];
      }
    }
  }

  class CycleFinder<T(==)> {
    /** The elements the inner iterator yields, and how many it has yielded. */
    const inner: seq<T>
    var pos: nat
    var seen: set<T>
    /** The elements next has returned in Some, in order. */
    ghost var emitted: seq<T>

    /**
     * seen holds exactly the inner elements pulled so far, and exactly the
     * elements returned so far, none of them twice.
     */
    ghost predicate Valid()
      reads this
    {
      && pos <= |inner|
      && seen == Elems(inner[..pos])
      && seen == Elems(emitted)
      && Distinct(emitted)
    }

    /** find_cycle: wraps the inner iterator with an empty seen set. */
    constructor FindCycle(inner: seq<T>)
      ensures this.inner == inner && pos == 0 && seen == {} && emitted == []
      ensures Valid()
    {
      this.inner := inner;
      pos := 0;
      seen := {};
      emitted := [];
    }

    /**
     * next: pulls one inner element. None when the inner iterator is
     * exhausted or the element was seen before; otherwise the element,
     * which joins seen. A repeat still consumes its inner element.
     */
    method Next() returns (r: Option<T>)
      requires Valid()
      modifies this
      ensures Valid()
      ensures old(pos) == |inner| ==> r == None && pos == old(pos) && seen == old(seen)
      ensures old(pos) < |inner| ==> pos == old(pos) + 1
      ensures old(pos) < |inner| && inner[old(pos)] in old(seen) ==> r == None && seen == old(seen)
      ensures old(pos) < |inner| && inner[old(pos)] !in old(seen) ==>
                r == Some(inner[old(pos)]) && seen == old(seen) + {inner[old(pos)]}
      ensures emitted == old(emitted) + (if r.Some? then [r.value] else [])
    {
      if pos == |inner| {
        return None;
      }
      var n := inner[pos];
      assert inner[..pos + 1] == inner[..pos] + [n];
      pos := pos + 1;
      if n in seen {
        return None;
      }
      assert forall i :: 0 <= i < |emitted| ==> emitted[i] in seen;
      seen := seen + {n};
      emitted := emitted + [n];
      r := Some(n);
    }

    /**
     * collect: calls next until the first None and gathers the elements:
     * the remaining inner elements up to the first repeat.
     */
    method Collect() returns (out: seq<T>)
      requires Valid()
      modifies this
      ensures Valid()
      ensures out == PrefixUntilRepeat(old(inner[pos..]), old(seen))
    {
      ghost var goal := PrefixUntilRepeat(inner[pos..], seen);
      out := [];
      var r := Next();
      while r.Some?
        invariant Valid()
        invariant r.Some? ==> out + [r.value] + PrefixUntilRepeat(inner[pos..], seen) == goal
        invariant r.None? ==> out == goal
        decreases |inner| - pos + (if r.Some? then 1 else 0)
      {
        out := out + [r.value];
        ghost var rest, before := inner[pos..], pos;
        PrefixCases(rest, seen);
        r := Next();
        if before < |inner| {
          assert rest[0] == inner[before] && rest[1..] == inner[pos..];
        }
      }
    }
  }

  /** The two ways the repeat-free prefix begins: empty at the end or at a seen element, else the new element and the prefix after it. */
  lemma PrefixCases<T>(s: seq<T>, seen: set<T>)
    ensures s == [] || s[0] in seen ==> PrefixUntilRepeat(s, seen) == []
    ensures s != [] && s[0] !in seen ==> PrefixUntilRepeat(s, seen) == [s[0]] + PrefixUntilRepeat(s[1..], seen + {s[0]})
  {
  }

  /** An element not seen yet starts the repeat-free prefix of the rest from it. */
  lemma PrefixStep<T>(s: seq<T>, k: nat, seen: set<T>)
    requires k < |s| && s[k] !in seen
    ensures PrefixUntilRepeat(s[k..], seen) == [s[k]] + PrefixUntilRepeat(s[k + 1..], seen + {s[k]})
  {
    assert s[k..][0] == s[k] && s[k..][1..] == s[k + 1..];
  }

  /** The repeat-free prefix of [1,2,3,4,5,1,2,3,4,5] is [1,2,3,4,5]. */
  lemma ExamplePrefix(s: seq<int>)
    requires s == [1, 2, 3, 4, 5, 1, 2, 3, 4, 5]
    ensures PrefixUntilRepeat(s, {}) == [1, 2, 3, 4, 5]
  {
    var seen0: set<int> := {};
    var seen1 := seen0 + {s[0]};
    var seen2 := seen1 + {s[1]};
    var seen3 := seen2 + {s[2]};
    var seen4 := seen3 + {s[3]};
    var seen5 := seen4 + {s[4]};
    assert s[5] in seen5 && s[5..][0] == s[5];
    assert PrefixUntilRepeat(s[5..], seen5) == [];
    PrefixStep(s, 4, seen4);
    assert PrefixUntilRepeat(s[4..], seen4) == [5];
    PrefixStep(s, 3, seen3);
    assert PrefixUntilRepeat(s[3..], seen3) == [4, 5];
    PrefixStep(s, 2, seen2);
    assert PrefixUntilRepeat(s[2..], seen2) == [3, 4, 5];
    PrefixStep(s, 1, seen1);
    assert PrefixUntilRepeat(s[1..], seen1) == [2, 3, 4, 5];
    PrefixStep(s, 0, seen0);
    assert s[0..] == s;
  }

  /** On [1,2,3,4,5,1,2,3,4,5] the adapter yields 1 to 5 and stops at the repeat. */
  method CollectExample() returns (out: seq<int>)
    ensures out == [1, 2, 3, 4, 5]
  {
    var finder := new CycleFinder.FindCycle([1, 2, 3, 4, 5, 1, 2, 3, 4, 5]);
    ghost var s := finder.inner[finder.pos..];
    assert s == [1, 2, 3, 4, 5, 1, 2, 3, 4, 5];
    out := finder.Collect();
    ExamplePrefix(s);
  }

  /**
   * The adapter is not fused: after the None for a repeated 1, the next
   * call pulls the fresh 2 and yields it.
   */
  method NotFusedExample() returns (first: Option<int>, second: Option<int>, third: Option<int>)
    ensures first == Some(1) && second == None && third == Some(2)
  {
    var finder := new CycleFinder.FindCycle([1, 1, 2]);
    first := finder.Next();
    second := finder.Next();
    third := finder.Next();
  }
}
