/** Which parts of which segments an extent of their concatenation falls on. */
module Segments {
  import opened Common

  datatype Extent = Extent(start: int, length: int) {
    function End(): int {
      start + length
    }
  }

  /** One call of the callback: a segment and the part of it. */
  datatype Call = Call(segment: nat, part: Extent)

  /** Where a segment starts in the concatenation. */
  function Offset(lens: seq<nat>, i: nat): (off: nat)
    requires i <= |lens|
  {
    if i == 0 then 0 else Offset(lens, i - 1) + lens[i - 1]
  }

  /** Where it ends. */
  function SegmentEnd(lens: seq<nat>, i: nat): nat
    requires i < |lens|
  {
    Offset(lens, i) + lens[i]
  }

  function Total(lens: seq<nat>): nat {
    Offset(lens, |lens|)
  }

  lemma {:induction false} OffsetGrows(lens: seq<nat>, i: nat, j: nat)
    requires i <= j <= |lens|
    ensures Offset(lens, i) <= Offset(lens, j)
    decreases j
  {
    if i >= j {
    } else {
      OffsetGrows(lens, i, j - 1);
    }
  }

  // ------------------------------------------------------------------- scan

  datatype Scanned = Scanned(calls: seq<Call>, ok: bool)

  /**
   * Walk over the segments from number `i`, the extent relative to the start of that segment.
   * `go` is the callback's answer: false stops the walk.
   */
  function Scan(lens: seq<nat>, i: nat, e: Extent, go: Call -> bool): (r: Scanned)
    requires i <= |lens|
    decreases |lens| - i
  {
    if e.length == 0 then Scanned([], true)
    else if i == |lens| then Scanned([], false)
    else if e.start < lens[i] || (e.start == lens[i] && lens[i] == 0) then
      var part := Extent(e.start, Min(lens[i], e.End()) - e.start);
      if part.length < 0 then Scan(lens, i + 1, e, go)
      else if !go(Call(i, part)) then Scanned([Call(i, part)], true)
      else
        var rest := Scan(lens, i + 1, Extent(0, e.length - part.length), go);
        Scanned([Call(i, part)] + rest.calls, rest.ok)
    else Scan(lens, i + 1, Extent(e.start - lens[i], e.length), go)
  }

  /** A scan after some calls. */
  function Following(calls: seq<Call>, r: Scanned): Scanned {
    Scanned(calls + r.calls, r.ok)
  }

  lemma FollowingOne(calls: seq<Call>, c: Call, r: Scanned)
    ensures Following(calls, Scanned([c] + r.calls, r.ok)) == Following(calls + [c], r)
    ensures Following(calls, Scanned([c], true)) == Scanned(calls + [c], true)
  {
    assert calls + ([c] + r.calls) == calls + [c] + r.calls;
  }

  /** What is left of a scan after some calls. */
  ghost predicate Ahead(lens: seq<nat>, i: nat, e: Extent, go: Call -> bool, calls: seq<Call>, goal: Scanned) {
    i <= |lens| && Following(calls, Scan(lens, i, e, go)) == goal
  }

  predicate Hits(l: nat, e: Extent) {
    e.start < l || (e.start == l && l == 0)
  }

  function PartOf(l: nat, e: Extent): Extent {
    Extent(e.start, Min(l, e.End()) - e.start)
  }

  lemma AheadEnds(lens: seq<nat>, i: nat, e: Extent, go: Call -> bool, calls: seq<Call>, goal: Scanned)
    requires Ahead(lens, i, e, go, calls, goal) && (e.length == 0 || i == |lens|)
    ensures goal == Scanned(calls, e.length == 0)
  {
    assert calls + [] == calls;
  }

  lemma AheadMiss(lens: seq<nat>, i: nat, e: Extent, go: Call -> bool, calls: seq<Call>, goal: Scanned)
    requires Ahead(lens, i, e, go, calls, goal) && e.length != 0 && i < |lens| && !Hits(lens[i], e)
    ensures Ahead(lens, i + 1, e.(start := e.start - lens[i]), go, calls, goal)
  {
  }

  lemma AheadNothing(lens: seq<nat>, i: nat, e: Extent, go: Call -> bool, calls: seq<Call>, goal: Scanned)
    requires Ahead(lens, i, e, go, calls, goal) && e.length != 0 && i < |lens|
    requires Hits(lens[i], e) && PartOf(lens[i], e).length < 0
    ensures Ahead(lens, i + 1, e, go, calls, goal)
  {
  }

  lemma AheadCall(lens: seq<nat>, i: nat, e: Extent, go: Call -> bool, calls: seq<Call>, goal: Scanned, c: Call)
    requires Ahead(lens, i, e, go, calls, goal) && e.length != 0 && i < |lens|
    requires Hits(lens[i], e) && c == Call(i, PartOf(lens[i], e)) && c.part.length >= 0
    ensures if go(c) then Ahead(lens, i + 1, Extent(0, e.length - c.part.length), go, calls + [c], goal)
            else goal == Scanned(calls + [c], true)
  {
    FollowingOne(calls, c, Scan(lens, i + 1, Extent(0, e.length - c.part.length), go));
  }

  /** A callback with its own state, which answers a call by `go`. */
  method ScanLoop(lens: seq<nat>, from: nat, needle: Extent, go: Call -> bool) returns (r: Scanned)
    requires from <= |lens|
    ensures r == Scan(lens, from, needle, go)
  {
    var e, i := needle, from;
    var calls: seq<Call> := [];
    ghost var goal := Scan(lens, from, needle, go);
    while e.length != 0
      invariant from <= i <= |lens| && Ahead(lens, i, e, go, calls, goal)
      decreases |lens| - i
    {
      if i == |lens| {
        AheadEnds(lens, i, e, go, calls, goal);
        return Scanned(calls, false);
      }
      var l := lens[i];
      if e.start < l || (e.start == l && l == 0) {
        var c := Call(i, Extent(e.start, Min(l, e.End()) - e.start));
        if c.part.length >= 0 {
          AheadCall(lens, i, e, go, calls, goal, c);
          calls := calls + [c];
          if !go(c) {
            return Scanned(calls, true);
          }
          e := Extent(0, e.length - c.part.length);
        } else {
          AheadNothing(lens, i, e, go, calls, goal);
        }
      } else {
        AheadMiss(lens, i, e, go, calls, goal);
        e := e.(start := e.start - l);
      }
      i := i + 1;
    }
    AheadEnds(lens, i, e, go, calls, goal);
    return Scanned(calls, true);
  }

  // ------------------------------------------------------------------ index

  /** The extents of the segments in the concatenation. */
  ghost predicate Indexes(index: seq<Extent>, lens: seq<nat>) {
    |index| == |lens| && forall i | 0 <= i < |lens| :: index[i] == Extent(Offset(lens, i), lens[i])
  }

  function IndexOf(lens: seq<nat>, k: nat): (index: seq<Extent>)
    requires k <= |lens|
    ensures |index| == k
    ensures forall i | 0 <= i < k :: index[i] == Extent(Offset(lens, i), lens[i])
  {
    if k == 0 then [] else IndexOf(lens, k - 1) + [Extent(Offset(lens, k - 1), lens[k - 1])]
  }

  method NewIndex(lens: seq<nat>) returns (index: seq<Extent>)
    ensures Indexes(index, lens)
  {
    index := [];
    var start, i := 0, 0;
    while i < |lens|
      invariant 0 <= i <= |lens| && start == Offset(lens, i) && index == IndexOf(lens, i)
    {
      index := index + [Extent(start, lens[i])];
      start := start + lens[i];
      i := i + 1;
    }
  }

  /** `r` is the first segment, from `i`, that ends after `off`. */
  ghost predicate IsFirstAfter(lens: seq<nat>, off: int, i: nat, r: nat) {
    && i <= r <= |lens|
    && (forall j | i <= j < r :: SegmentEnd(lens, j) <= off)
    && (r < |lens| ==> off < SegmentEnd(lens, r))
  }

  function FirstAfter(lens: seq<nat>, off: int, i: nat := 0): (r: nat)
    requires i <= |lens|
    ensures IsFirstAfter(lens, off, i, r)
    decreases |lens| - i
  {
    if i == |lens| || off < SegmentEnd(lens, i) then i else FirstAfter(lens, off, i + 1)
  }

  lemma EndsGrow(lens: seq<nat>, i: nat, j: nat)
    requires i <= j < |lens|
    ensures SegmentEnd(lens, i) <= SegmentEnd(lens, j)
  {
    OffsetGrows(lens, i + 1, j + 1);
  }

  /** Binary search for the same segment. */
  method Search(index: seq<Extent>, ghost lens: seq<nat>, off: int) returns (r: nat)
    requires Indexes(index, lens)
    ensures IsFirstAfter(lens, off, 0, r)
  {
    var lo, hi := 0, |index|;
    while lo < hi
      invariant 0 <= lo <= hi <= |index|
      invariant forall j | 0 <= j < lo :: SegmentEnd(lens, j) <= off
      invariant hi < |index| ==> off < SegmentEnd(lens, hi)
    {
      var mid := (lo + hi) / 2;
      assert index[mid].End() == SegmentEnd(lens, mid);
      if index[mid].End() > off {
        hi := mid;
      } else {
        forall j | 0 <= j <= mid
          ensures SegmentEnd(lens, j) <= off
        {
          EndsGrow(lens, j, mid);
        }
        lo := mid + 1;
      }
    }
    r := lo;
  }

  function Locate(lens: seq<nat>, e: Extent, go: Call -> bool): Scanned {
    var first := FirstAfter(lens, e.start);
    if first == |lens| then Scanned([], false)
    else Scan(lens, first, e.(start := e.start - Offset(lens, first)), go)
  }

  method Lengths(index: seq<Extent>, ghost lens: seq<nat>) returns (r: seq<nat>)
    requires Indexes(index, lens)
    ensures r == lens
  {
    r := [];
    while |r| < |index|
      invariant |r| <= |lens| && r == lens[..|r|]
    {
      r := r + [index[|r|].length];
    }
  }

  method LocateLoop(index: seq<Extent>, ghost lens: seq<nat>, e: Extent, go: Call -> bool) returns (r: Scanned)
    requires Indexes(index, lens)
    ensures r == Locate(lens, e, go)
  {
    var first := Search(index, lens, e.start);
    FirstIsUnique(lens, e.start, first);
    if first == |index| {
      return Scanned([], false);
    }
    var lengths := Lengths(index, lens);
    r := ScanLoop(lengths, first, e.(start := e.start - index[first].start), go);
  }

  lemma FirstIsUnique(lens: seq<nat>, off: int, r: nat)
    requires IsFirstAfter(lens, off, 0, r)
    ensures r == FirstAfter(lens, off)
  {
    assert r <= FirstAfter(lens, off) <= r;
  }

  // ------------------------------------------------- Locate is a faster Scan

  ghost predicate AllEmpty(calls: seq<Call>) {
    forall c | c in calls :: c.part.length == 0
  }

  /** The callback stops at none of the calls. */
  ghost predicate GoesThrough(go: Call -> bool, calls: seq<Call>) {
    forall c | c in calls :: go(c)
  }

  /** The calls up to the one at which the callback stops. */
  function UntilRefused(calls: seq<Call>, go: Call -> bool): seq<Call> {
    if calls == [] then []
    else if !go(calls[0]) then [calls[0]]
    else [calls[0]] + UntilRefused(calls[1..], go)
  }

  /** The calls that are not empty. */
  function Solid(calls: seq<Call>): seq<Call> {
    if calls == [] then []
    else (if calls[0].part.length == 0 then [] else [calls[0]]) + Solid(calls[1..])
  }

  lemma {:induction false} SolidAfterEmpty(a: seq<Call>, b: seq<Call>)
    requires AllEmpty(a)
    ensures Solid(a + b) == Solid(b)
  {
    if a == [] {
      assert a + b == b;
    } else {
      SolidAfterEmpty(a[1..], b);
      assert a[0] in a && (a + b)[0] == a[0] && (a + b)[1..] == a[1..] + b;
    }
  }

  lemma {:induction false} RefusedEmpty(calls: seq<Call>, go: Call -> bool)
    requires AllEmpty(calls)
    ensures AllEmpty(UntilRefused(calls, go))
  {
    if calls == [] {
    } else {
      RefusedEmpty(calls[1..], go);
      assert calls[0] in calls;
    }
  }

  /** The calls a scan makes before it comes to segment `first`: on empty segments where the extent starts. */
  function Lead(lens: seq<nat>, i: nat, start: int, first: nat): (calls: seq<Call>)
    requires i <= first <= |lens|
    ensures AllEmpty(calls)
    decreases first - i
  {
    if i == first then []
    else if lens[i] == 0 && start == 0 then [Call(i, Extent(0, 0))] + Lead(lens, i + 1, start, first)
    else Lead(lens, i + 1, start - lens[i], first)
  }

  /** A scan that begins with the calls of `lead`, unless the callback stops at one of them. */
  ghost function After(lead: seq<Call>, go: Call -> bool, rest: Scanned): Scanned {
    if GoesThrough(go, lead) then Scanned(lead + rest.calls, rest.ok) else Scanned(UntilRefused(lead, go), true)
  }

  lemma AfterCons(c: Call, lead: seq<Call>, go: Call -> bool, rest: Scanned)
    ensures After([c] + lead, go, rest) ==
            if go(c) then Scanned([c] + After(lead, go, rest).calls, After(lead, go, rest).ok) else Scanned([c], true)
  {
    assert ([c] + lead)[0] == c && ([c] + lead)[1..] == lead;
    assert c in [c] + lead;
    assert [c] + lead + rest.calls == [c] + (lead + rest.calls);
  }

  /** Up to the first segment that ends after its start, a scan only makes empty calls. */
  lemma {:induction false} ScanSkips(lens: seq<nat>, i: nat, e: Extent, go: Call -> bool, first: nat, e1: Extent)
    requires i <= first <= |lens| && e.start >= 0 && e.length > 0
    requires forall j | i <= j < first :: SegmentEnd(lens, j) <= Offset(lens, i) + e.start
    requires e1 == e.(start := Offset(lens, i) + e.start - Offset(lens, first))
    ensures e1.start >= 0
    ensures Scan(lens, i, e, go) == After(Lead(lens, i, e.start, first), go, Scan(lens, first, e1, go))
    decreases first - i
  {
    if i == first {
      assert [] + Scan(lens, first, e1, go).calls == Scan(lens, first, e1, go).calls;
    } else {
      assert SegmentEnd(lens, i) <= Offset(lens, i) + e.start;
      ScanSkips(lens, i + 1, Extent(e.start - lens[i], e.length), go, first, e1);
      ScanPasses(lens, i, e, go);
      AfterCons(Call(i, Extent(0, 0)), Lead(lens, i + 1, e.start - lens[i], first), go, Scan(lens, first, e1, go));
    }
  }

  lemma ScanPasses(lens: seq<nat>, i: nat, e: Extent, go: Call -> bool)
    requires i < |lens| && lens[i] <= e.start && e.length > 0
    ensures var r := Scan(lens, i + 1, Extent(e.start - lens[i], e.length), go);
            Scan(lens, i, e, go) ==
            if lens[i] > 0 || e.start > 0 then r
            else if go(Call(i, Extent(0, 0))) then Scanned([Call(i, Extent(0, 0))] + r.calls, r.ok)
            else Scanned([Call(i, Extent(0, 0))], true)
  {
  }

  /** The search fails, or begins with a call that is not empty. */
  lemma LocateStarts(lens: seq<nat>, e: Extent, go: Call -> bool)
    requires e.start >= 0 && e.length > 0
    ensures !Locate(lens, e, go).ok || Solid(Locate(lens, e, go).calls) != []
  {
    var first := FirstAfter(lens, e.start);
    if first < |lens| {
      if first > 0 {
        assert SegmentEnd(lens, first - 1) <= e.start;
      }
      assert e.start < SegmentEnd(lens, first);
    }
  }

  /**
   * For extents of positive length the search gives what the scan gives, except that the scan may begin
   * with calls on empty segments that end where the extent starts.  That is so if and only if the callback
   * does not stop at one of them; otherwise the scan succeeds with nothing but empty calls.
   */
  lemma LocateIsScan(lens: seq<nat>, e: Extent, go: Call -> bool)
    requires e.start >= 0 && e.length > 0
    ensures var lead := Lead(lens, 0, e.start, FirstAfter(lens, e.start));
            var scanned, located := Scan(lens, 0, e, go), Locate(lens, e, go);
            && (GoesThrough(go, lead) <==> scanned.ok == located.ok && Solid(scanned.calls) == Solid(located.calls))
            && (GoesThrough(go, lead) ==> scanned == Scanned(lead + located.calls, located.ok))
            && (!GoesThrough(go, lead) ==> scanned == Scanned(UntilRefused(lead, go), true) && AllEmpty(scanned.calls))
  {
    var first := FirstAfter(lens, e.start);
    var lead, located := Lead(lens, 0, e.start, first), Locate(lens, e, go);
    ScanSkips(lens, 0, e, go, first, e.(start := e.start - Offset(lens, first)));
    LocateStarts(lens, e, go);
    assert Scan(lens, 0, e, go) == After(lead, go, located);
    AfterSame(lead, go, located);
  }

  /** A scan with empty calls before it is like the one without them unless the callback stops at one of them. */
  lemma AfterSame(lead: seq<Call>, go: Call -> bool, located: Scanned)
    requires AllEmpty(lead) && (!located.ok || Solid(located.calls) != [])
    ensures var scanned := After(lead, go, located);
            && (GoesThrough(go, lead) <==> scanned.ok == located.ok && Solid(scanned.calls) == Solid(located.calls))
            && (!GoesThrough(go, lead) ==> AllEmpty(scanned.calls))
  {
    SolidAfterEmpty(lead, located.calls);
    RefusedEmpty(lead, go);
    SolidAfterEmpty(UntilRefused(lead, go), []);
    assert UntilRefused(lead, go) + [] == UntilRefused(lead, go);
  }

  /** An empty file before the data: a callback that stops there ends the scan, but not the search. */
  lemma LocateIsNotScan(go: Call -> bool)
    requires !go(Call(0, Extent(0, 0))) && go(Call(1, Extent(0, 3)))
    ensures Scan([0, 5], 0, Extent(0, 3), go) == Scanned([Call(0, Extent(0, 0))], true)
    ensures Locate([0, 5], Extent(0, 3), go) == Scanned([Call(1, Extent(0, 3))], true)
  {
    assert SegmentEnd([0, 5], 0) == 0 && SegmentEnd([0, 5], 1) == 5;
  }

  /** For an empty extent the scan always succeeds, the search only if something lies behind its start. */
  lemma LocateEmpty(lens: seq<nat>, start: nat, go: Call -> bool)
    ensures Scan(lens, 0, Extent(start, 0), go) == Scanned([], true)
    ensures Locate(lens, Extent(start, 0), go) == Scanned([], start < Total(lens))
  {
    var first := FirstAfter(lens, start);
    if first == |lens| {
      if |lens| > 0 {
        assert SegmentEnd(lens, |lens| - 1) <= start;
      }
    } else {
      OffsetGrows(lens, first + 1, |lens|);
    }
  }

  /** They differ on the empty extent at the end of a segment of five bytes. */
  lemma LocateEmptyFails(go: Call -> bool)
    ensures Scan([5], 0, Extent(5, 0), go).ok && !Locate([5], Extent(5, 0), go).ok
  {
    LocateEmpty([5], 5, go);
    assert Total([5]) == 5;
  }

  // ------------------------------------------------------------------ tiling

  /**
   * The calls lie inside their segments and cover the concatenation from `a` to `b` without a gap;
   * each takes all of its segment that lies before `end`.
   */
  ghost predicate Tiles(lens: seq<nat>, calls: seq<Call>, a: int, end: int, b: int)
    decreases calls
  {
    if calls == [] then a == b
    else Takes(lens, calls[0], a, end) && Tiles(lens, calls[1..], a + calls[0].part.length, end, b)
  }

  ghost predicate Takes(lens: seq<nat>, c: Call, a: int, end: int) {
    && c.segment < |lens|
    && 0 <= c.part.start <= lens[c.segment] && a <= end
    && Offset(lens, c.segment) + c.part.start == a
    && c.part.length == Min(lens[c.segment] - c.part.start, end - a)
  }

  ghost predicate Goes(go: Call -> bool) {
    forall c :: go(c)
  }

  lemma TilesCons(lens: seq<nat>, c: Call, calls: seq<Call>, a: int, end: int, b: int)
    requires Takes(lens, c, a, end) && Tiles(lens, calls, a + c.part.length, end, b)
    ensures Tiles(lens, [c] + calls, a, end, b)
  {
    assert ([c] + calls)[1..] == calls;
  }

  /** How far an extent of `n` bytes at `a` reaches when there are `total`. */
  function Reach(a: int, n: int, total: int): int {
    Max(a, Min(a + n, total))
  }

  lemma ScanHits(lens: seq<nat>, i: nat, e: Extent, go: Call -> bool)
    requires i < |lens| && e.length > 0 && Goes(go)
    requires 0 <= e.start < lens[i] || (e.start == 0 && lens[i] == 0)
    ensures var part := Extent(e.start, Min(lens[i], e.End()) - e.start);
            var rest := Scan(lens, i + 1, Extent(0, e.length - part.length), go);
            Scan(lens, i, e, go) == Scanned([Call(i, part)] + rest.calls, rest.ok)
  {
    assert go(Call(i, Extent(e.start, Min(lens[i], e.End()) - e.start)));
  }

  ghost predicate ScansWell(lens: seq<nat>, i: nat, e: Extent, r: Scanned)
    requires i <= |lens|
  {
    var a := Offset(lens, i) + e.start;
    && Tiles(lens, r.calls, a, a + e.length, Reach(a, e.length, Total(lens)))
    && (e.length > 0 ==> (r.ok <==> a + e.length <= Total(lens)))
  }

  lemma HitReach(off: nat, l: nat, total: nat, e: Extent, part: Extent)
    requires off + l <= total && e.length > 0 && 0 <= e.start <= l
    requires part == Extent(e.start, Min(l, e.End()) - e.start)
    ensures 0 <= part.length <= e.length && part.End() <= l
    ensures part.length == e.length ==> Reach(off + e.start, e.length, total) == off + e.start + part.length
    ensures part.length < e.length ==> part.End() == l
    ensures part.length < e.length ==>
              Reach(off + e.start, e.length, total) == Reach(off + l, e.length - part.length, total)
  {
  }

  lemma HitScansWell(lens: seq<nat>, i: nat, e: Extent, part: Extent, rest: Scanned)
    requires i < |lens| && e.length > 0
    requires 0 <= e.start <= lens[i]
    requires part == Extent(e.start, Min(lens[i], e.End()) - e.start)
    requires ScansWell(lens, i + 1, Extent(0, e.length - part.length), rest)
    requires e.length == part.length ==> rest == Scanned([], true)
    ensures ScansWell(lens, i, e, Scanned([Call(i, part)] + rest.calls, rest.ok))
  {
    var a, b := Offset(lens, i) + e.start, Reach(Offset(lens, i) + e.start, e.length, Total(lens));
    OffsetGrows(lens, i + 1, |lens|);
    HitReach(Offset(lens, i), lens[i], Total(lens), e, part);
    assert Tiles(lens, rest.calls, a + part.length, a + e.length, b);
    TilesCons(lens, Call(i, part), rest.calls, a, a + e.length, b);
  }

  lemma EndScansWell(lens: seq<nat>, i: nat, e: Extent, go: Call -> bool)
    requires i <= |lens| && e.start >= 0 && e.length >= 0 && (e.length == 0 || i == |lens|)
    ensures ScansWell(lens, i, e, Scan(lens, i, e, go))
  {
  }

  lemma ScanMisses(lens: seq<nat>, i: nat, e: Extent, go: Call -> bool)
    requires i < |lens| && e.length != 0 && !Hits(lens[i], e)
    ensures Scan(lens, i, e, go) == Scan(lens, i + 1, Extent(e.start - lens[i], e.length), go)
  {
  }

  lemma MissScansWell(lens: seq<nat>, i: nat, e: Extent, e1: Extent, r: Scanned)
    requires i < |lens| && e1 == Extent(e.start - lens[i], e.length) && ScansWell(lens, i + 1, e1, r)
    ensures ScansWell(lens, i, e, r)
  {
    assert Offset(lens, i + 1) + e1.start == Offset(lens, i) + e.start;
  }

  /** Without a stop the calls of a scan tile the extent as far as there are segments. */
  lemma {:induction false} ScanTiles(lens: seq<nat>, i: nat, e: Extent, go: Call -> bool)
    requires i <= |lens| && e.start >= 0 && e.length >= 0 && Goes(go)
    ensures ScansWell(lens, i, e, Scan(lens, i, e, go))
    decreases |lens| - i
  {
    if e.length == 0 || i == |lens| {
      EndScansWell(lens, i, e, go);
    } else {
      if e.start < lens[i] || (e.start == lens[i] && lens[i] == 0) {
        ScanHits(lens, i, e, go);
        var part := Extent(e.start, Min(lens[i], e.End()) - e.start);
        var e1 := Extent(0, e.length - part.length);
        ScanTiles(lens, i + 1, e1, go);
        HitScansWell(lens, i, e, part, Scan(lens, i + 1, e1, go));
      } else {
        var e1 := Extent(e.start - lens[i], e.length);
        ScanTiles(lens, i + 1, e1, go);
        ScanMisses(lens, i, e, go);
        MissScansWell(lens, i, e, e1, Scan(lens, i + 1, e1, go));
      }
    }
  }

  /** The calls of the search tile the extent, clipped to what there is, and it says whether it was clipped. */
  lemma LocateTiles(lens: seq<nat>, e: Extent, go: Call -> bool)
    requires e.start >= 0 && e.length >= 0 && Goes(go)
    ensures Tiles(lens, Locate(lens, e, go).calls, e.start, e.End(), Reach(e.start, e.length, Total(lens)))
    ensures e.length > 0 ==> (Locate(lens, e, go).ok <==> e.End() <= Total(lens))
  {
    var first := FirstAfter(lens, e.start);
    if first == |lens| {
      if |lens| > 0 {
        assert SegmentEnd(lens, |lens| - 1) <= e.start;
      }
    } else {
      if first > 0 {
        assert SegmentEnd(lens, first - 1) <= e.start;
      }
      ScanTiles(lens, first, e.(start := e.start - Offset(lens, first)), go);
    }
  }
}
