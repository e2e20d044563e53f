/** Looking at a range of a bitmap of 32-bit numbers: what is not set, and how much is. */
module Bitmaps {
  import opened Common
  import opened ChunkGeometry

  ghost predicate IsBitmap(bm: set<nat>) {
    forall x | x in bm :: x < TWO32
  }

  // ------------------------------------------------------------ what is not set

  /** The numbers of a range that are not set, in increasing order. */
  function Unset(bm: set<nat>, start: nat, end: nat): seq<nat>
    decreases end - start
  {
    if start >= end then []
    else (if start in bm then [] else [start]) + Unset(bm, start + 1, end)
  }

  lemma IncreasingCons(x: nat, s: seq<nat>)
    requires Increasing(s) && forall y | y in s :: x < y
    ensures Increasing([x] + s)
  {
    assert forall i | 0 <= i < |s| :: s[i] in s;
  }

  lemma UnsetUnrolls(bm: set<nat>, start: nat, end: nat)
    requires start < end
    ensures Unset(bm, start, end) ==
            if start in bm then Unset(bm, start + 1, end) else [start] + Unset(bm, start + 1, end)
  {
  }

  lemma {:induction false} UnsetMember(bm: set<nat>, start: nat, end: nat, x: nat)
    ensures x in Unset(bm, start, end) <==> start <= x < end && x !in bm
    decreases end - start
  {
    if start >= end {
    } else {
      UnsetMember(bm, start + 1, end, x);
      UnsetUnrolls(bm, start, end);
    }
  }

  lemma {:induction false} UnsetIncreasing(bm: set<nat>, start: nat, end: nat)
    ensures Increasing(Unset(bm, start, end))
    decreases end - start
  {
    if start >= end {
    } else {
      var rest := Unset(bm, start + 1, end);
      UnsetIncreasing(bm, start + 1, end);
      forall y | y in rest
        ensures start < y
      {
        UnsetMember(bm, start + 1, end, y);
      }
      IncreasingCons(start, rest);
      UnsetUnrolls(bm, start, end);
    }
  }

  /** Each number of the range that is not set is there, once, in order, and nothing else. */
  lemma UnsetExact(bm: set<nat>, start: nat, end: nat)
    ensures forall x :: x in Unset(bm, start, end) <==> start <= x < end && x !in bm
    ensures Increasing(Unset(bm, start, end))
  {
    forall x: nat
      ensures x in Unset(bm, start, end) <==> start <= x < end && x !in bm
    {
      UnsetMember(bm, start, end, x);
    }
    UnsetIncreasing(bm, start, end);
  }

  lemma {:induction false} UnsetSplit(bm: set<nat>, start: nat, mid: nat, end: nat)
    requires start <= mid <= end
    ensures Unset(bm, start, end) == Unset(bm, start, mid) + Unset(bm, mid, end)
    decreases mid - start
  {
    if start >= mid {
    } else {
      UnsetSplit(bm, start + 1, mid, end);
    }
  }

  ghost predicate Increasing(it: seq<nat>) {
    forall i, j | 0 <= i < j < |it| :: it[i] < it[j]
  }

  ghost function Elements(it: seq<nat>): set<nat> {
    set x | x in it
  }

  /** Call back for a run of numbers none of which is set. */
  method EmitRun(ghost bm: set<nat>, from: nat, to: nat, out0: seq<nat>) returns (out: seq<nat>)
    requires forall x | from <= x < to :: x !in bm
    ensures out == out0 + Unset(bm, from, to)
  {
    out := out0;
    var index := from;
    while index < to
      invariant from <= index <= Max(from, to)
      invariant out + Unset(bm, index, to) == out0 + Unset(bm, from, to)
    {
      ghost var before := out;
      out := out + [index];
      assert before + Unset(bm, index, to) == out + Unset(bm, index + 1, to);
      index := index + 1;
    }
  }

  /** Up to the next set number, and from behind it. */
  lemma UnsetStep(bm: set<nat>, at: nat, next: nat, end: nat, out: seq<nat>)
    requires at <= next < end && next in bm
    ensures out + Unset(bm, at, end) == out + Unset(bm, at, next) + Unset(bm, next + 1, end)
  {
    UnsetSplit(bm, at, next, end);
    UnsetSkip(bm, next, end);
    Regroup(out, Unset(bm, at, next), Unset(bm, next + 1, end));
  }

  lemma UnsetSkip(bm: set<nat>, next: nat, end: nat)
    requires next < end && next in bm
    ensures Unset(bm, next, end) == Unset(bm, next + 1, end)
  {
  }

  lemma Regroup(a: seq<nat>, b: seq<nat>, c: seq<nat>)
    ensures a + (b + c) == a + b + c
  {
  }

  /** Skip the set numbers below the start. */
  method AdvanceIfNeeded(it: seq<nat>, start: nat) returns (n: nat)
    requires Increasing(it)
    ensures Stands(it, n, start)
  {
    n := 0;
    while n < |it| && it[n] < start
      invariant 0 <= n <= |it| && forall i | 0 <= i < n :: it[i] < start
    {
      n := n + 1;
    }
  }

  /** The iterator stands before the first set number that is at least `at`. */
  ghost predicate Stands(it: seq<nat>, n: nat, at: nat) {
    n <= |it| && (forall i | 0 <= i < n :: it[i] < at) && (forall i | n <= i < |it| :: it[i] >= at)
  }

  lemma StandsNext(it: seq<nat>, n: nat)
    requires Increasing(it) && n < |it|
    ensures Stands(it, n + 1, it[n] + 1)
  {
  }

  lemma NoneBefore(it: seq<nat>, n: nat, at: nat, to: nat)
    requires Increasing(it) && Stands(it, n, at) && (n < |it| ==> to <= it[n])
    ensures forall x | at <= x < to :: x !in Elements(it)
  {
  }

  /**
   * Call back for the numbers of a range that are not set; the iterator gives those that are.
   * The number before the start wraps around when the start is zero.
   */
  method IterUnsetInRange(it: seq<nat>, start: nat, end: nat) returns (out: seq<nat>)
    requires Increasing(it) && start < TWO32 && end < TWO32
    ensures out == Unset(Elements(it), start, end)
  {
    ghost var bm, goal := Elements(it), Unset(Elements(it), start, end);
    var n := AdvanceIfNeeded(it, start);
    var lastDirty := U32(start - 1);
    out := [];
    ghost var at := start;                   // everything below has been dealt with
    while n < |it|
      invariant n <= |it| && at == U32(lastDirty + 1) && Stands(it, n, at)
      invariant out + Unset(bm, at, end) == goal
      decreases |it| - n
    {
      var next := it[n];
      if next >= end {
        break;
      }
      NoneBefore(it, n, at, next);
      StandsNext(it, n);
      Unwrapped(next + 1);
      UnsetStep(bm, at, next, end, out);
      out := EmitRun(bm, U32(lastDirty + 1), next, out);
      lastDirty, at := next, next + 1;
      n := n + 1;
    }
    NoneBefore(it, n, at, end);
    out := EmitRun(bm, U32(lastDirty + 1), end, out);
  }

  // ------------------------------------------------------------- how much is set

  function Between(bm: set<nat>, start: nat, end: nat): set<nat> {
    set x | x in bm && start <= x < end
  }

  lemma BetweenMore(bm: set<nat>, from: nat, at: nat)
    requires from <= at
    ensures |Between(bm, from, at + 1)| == |Between(bm, from, at)| + if at in bm then 1 else 0
  {
    if at in bm {
      assert Between(bm, from, at + 1) == Between(bm, from, at) + {at};
    } else {
      assert Between(bm, from, at + 1) == Between(bm, from, at);
    }
  }

  /** How many set numbers are at most `x`. */
  function Rank(bm: set<nat>, x: int): nat {
    |set y | y in bm && y <= x|
  }

  const TWO64: int := 0x1_0000_0000_0000_0000

  function U64(x: int): int {
    x % TWO64
  }

  function RangeCardinality(bm: set<nat>, start: nat, end: nat): int {
    var card := Rank(bm, U32(end - 1));
    if start != 0 then U64(card - Rank(bm, start - 1)) else card
  }

  lemma BetweenSplit(bm: set<nat>, a: nat, b: nat, c: nat)
    requires a <= b <= c
    ensures |Between(bm, a, c)| == |Between(bm, a, b)| + |Between(bm, b, c)|
  {
    assert Between(bm, a, c) == Between(bm, a, b) + Between(bm, b, c);
  }

  lemma RankIs(bm: set<nat>, x: nat)
    ensures Rank(bm, x) == |Between(bm, 0, x + 1)|
  {
    assert (set y | y in bm && y <= x) == Between(bm, 0, x + 1);
  }

  /** Where a range that should end at `end` ends when its last number wraps around. */
  function Top(end: nat): nat {
    U32(end - 1) + 1
  }

  lemma TopIs(end: nat)
    ensures U32(U32(end) - 1) == U32(end - 1)
    ensures Top(end) <= TWO32 && (end == 0 ==> Top(end) == TWO32) && (0 < end <= TWO32 ==> Top(end) == end)
    ensures TWO32 < end < 2 * TWO32 ==> Top(end) == end - TWO32
  {
  }

  /** The two ranks, before the difference wraps around. */
  lemma CardinalityIs(bm: set<nat>, start: nat, end: nat)
    requires IsBitmap(bm) && start < TWO32
    ensures RangeCardinality(bm, start, U32(end)) == U64(|Between(bm, 0, Top(end))| - |Between(bm, 0, start)|)
  {
    TopIs(end);
    RankIs(bm, U32(end - 1));
    SmallSet(bm, 0, Top(end));
    if start > 0 {
      RankIs(bm, start - 1);
    } else {
      assert Between(bm, 0, start) == {};
    }
  }

  /** A range has no more numbers than it is long. */
  lemma SmallSet(bm: set<nat>, start: nat, end: nat)
    requires start <= end
    ensures |Between(bm, start, end)| <= end - start
  {
    UnsetCount(bm, start, end);
  }

  /** Numbers too far apart do not wrap to the same. */
  lemma WrapsRight(x: int, y: int)
    requires -TWO32 <= x <= TWO32 && 0 <= y <= TWO32
    ensures U64(x) == y <==> x == y
  {
  }

  /**
   * The two ranks give the number of set bits of the range that is meant, wherever its end wraps to,
   * if and only if no bit lies between the end that is meant and the one that is used.
   */
  lemma CardinalityRightIff(bm: set<nat>, start: nat, end: nat)
    requires IsBitmap(bm) && start <= end && start < TWO32
    ensures RangeCardinality(bm, start, U32(end)) == |Between(bm, start, end)| <==>
            if end == 0 then bm == {} else end <= TWO32 || Between(bm, Top(end), TWO32) == {}
  {
    var top, cut := Top(end), Min(end, TWO32);
    TopIs(end);
    CardinalityIs(bm, start, end);
    SmallSet(bm, 0, top);
    SmallSet(bm, 0, start);
    SmallSet(bm, 0, cut);
    assert Between(bm, start, end) == Between(bm, start, cut);
    BetweenSplit(bm, 0, start, cut);
    WrapsRight(|Between(bm, 0, top)| - |Between(bm, 0, start)|, |Between(bm, start, cut)|);
    if end == 0 {
      assert Between(bm, 0, top) == bm && Between(bm, 0, cut) == {};
    } else if end > TWO32 {
      BetweenSplit(bm, 0, top, cut);
    }
  }

  /** A range that ends at zero counts everything, and one that ends beyond the 32-bit numbers may count nothing. */
  lemma CardinalityExamples()
    ensures RangeCardinality({7}, 0, 0) == 1 && Between({7}, 0, 0) == {}
    ensures RangeCardinality({0xc000_0000}, 0xc000_0000, U32(0x1_8000_0000)) == 0
    ensures Between({0xc000_0000}, 0xc000_0000, 0x1_8000_0000) == {0xc000_0000}
  {
    var a, b: set<nat> := {7}, {0xc000_0000};
    RankIs(a, 0xffff_ffff);
    assert Between(a, 0, TWO32) == a;
    RankIs(b, 0x7fff_ffff);
    RankIs(b, 0xbfff_ffff);
    assert Between(b, 0, 0x8000_0000) == Between(b, 0, 0xc000_0000) == {};
  }

  /** Set and unset numbers make up the range. */
  lemma {:induction false} UnsetCount(bm: set<nat>, start: nat, end: nat)
    requires start <= end
    ensures |Unset(bm, start, end)| + |Between(bm, start, end)| == end - start
    decreases end - start
  {
    if start == end {
      assert Between(bm, start, end) == {};
    } else {
      UnsetCount(bm, start + 1, end);
      if start in bm {
        assert Between(bm, start, end) == Between(bm, start + 1, end) + {start};
      } else {
        assert Between(bm, start, end) == Between(bm, start + 1, end);
      }
    }
  }
}
