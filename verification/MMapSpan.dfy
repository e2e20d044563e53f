/** Many byte buffers that are read and written as one. */
module MMapSpan {
  import opened Common
  import opened Segments

  // ------------------------------------------------------------- the buffers

  function Lens(segs: seq<seq<byte>>): seq<nat> {
    seq(|segs|, i requires 0 <= i < |segs| => |segs[i]|)
  }

  /** The first `k` buffers one after the other. */
  function Flat(segs: seq<seq<byte>>, k: nat): (f: seq<byte>)
    requires k <= |segs|
    ensures |f| == Offset(Lens(segs), k)
  {
    if k == 0 then [] else Flat(segs, k - 1) + segs[k - 1]
  }

  /** `f` with the bytes at `off` replaced by `s`. */
  function Splice(f: seq<byte>, off: nat, s: seq<byte>): (r: seq<byte>)
    requires off + |s| <= |f|
    ensures |r| == |f|
  {
    f[..off] + s + f[off + |s|..]
  }

  /** A part of a buffer is a part of the whole. */
  lemma {:induction false} FlatAt(segs: seq<seq<byte>>, k: nat, i: nat, from: nat, n: nat, off: nat)
    requires i < k <= |segs| && from + n <= |segs[i]| && off == Offset(Lens(segs), i) + from
    ensures off + n <= |Flat(segs, k)| && Flat(segs, k)[off..off + n] == segs[i][from..from + n]
    decreases k
  {
    if i == k - 1 {
      SliceBack(Flat(segs, k - 1), segs[i], off, from, n);
    } else {
      FlatAt(segs, k - 1, i, from, n, off);
      SliceFront(Flat(segs, k - 1), segs[k - 1], off, n);
    }
  }

  lemma SliceFront(f: seq<byte>, g: seq<byte>, off: nat, n: nat)
    requires off + n <= |f|
    ensures (f + g)[off..off + n] == f[off..off + n]
  {
  }

  lemma SliceBack(f: seq<byte>, g: seq<byte>, off: nat, from: nat, n: nat)
    requires off == |f| + from && from + n <= |g|
    ensures (f + g)[off..off + n] == g[from..from + n]
  {
  }

  /** Writing into a buffer is writing into the whole. */
  lemma {:induction false} FlatSplice(segs: seq<seq<byte>>, segs1: seq<seq<byte>>, k: nat, i: nat, from: nat,
                                      s: seq<byte>, off: nat)
    requires i < k <= |segs| && from + |s| <= |segs[i]| && off == Offset(Lens(segs), i) + from
    requires segs1 == segs[i := Splice(segs[i], from, s)]
    ensures off + |s| <= |Flat(segs, k)| && Flat(segs1, k) == Splice(Flat(segs, k), off, s)
    decreases k
  {
    FlatAt(segs, k, i, from, |s|, off);
    if i == k - 1 {
      FlatPrefix(segs, segs1, k - 1);
      SpliceBack(Flat(segs, k - 1), segs[i], from, s);
    } else {
      FlatSplice(segs, segs1, k - 1, i, from, s, off);
      SpliceFront(Flat(segs, k - 1), segs[k - 1], off, s);
    }
  }

  lemma SpliceFront(f: seq<byte>, g: seq<byte>, off: nat, s: seq<byte>)
    requires off + |s| <= |f|
    ensures Splice(f, off, s) + g == Splice(f + g, off, s)
  {
  }

  lemma SpliceBack(f: seq<byte>, g: seq<byte>, from: nat, s: seq<byte>)
    requires from + |s| <= |g|
    ensures f + Splice(g, from, s) == Splice(f + g, |f| + from, s)
  {
  }

  lemma {:induction false} FlatPrefix(segs: seq<seq<byte>>, segs1: seq<seq<byte>>, k: nat)
    requires k <= |segs| && k <= |segs1| && segs[..k] == segs1[..k]
    ensures Flat(segs, k) == Flat(segs1, k)
  {
    if k == 0 {
    } else {
      assert segs[k - 1] == segs[..k][k - 1] == segs1[..k][k - 1] == segs1[k - 1];
      assert segs[..k - 1] == segs[..k][..k - 1] == segs1[..k][..k - 1] == segs1[..k - 1];
      FlatPrefix(segs, segs1, k - 1);
    }
  }

  // -------------------------------------------------------- copying, by calls

  /** What is left of the argument and the buffers after copying the argument into them. */
  function WriteCalls(segs: seq<seq<byte>>, calls: seq<Call>, p: seq<byte>): Outcome<(seq<seq<byte>>, seq<byte>)>
    decreases calls
  {
    if calls == [] then Done((segs, p))
    else
      var c := calls[0];
      if !(c.segment < |segs| && 0 <= c.part.start <= |segs[c.segment]|) then Panic("slice bounds out of range")
      else
        var n := Min(|p|, |segs[c.segment]| - c.part.start);
        if n != c.part.length then Panic("did another number of bytes than expected")
        else WriteCalls(segs[c.segment := Splice(segs[c.segment], c.part.start, p[..n])], calls[1..], p[n..])
  }

  function ReadCalls(segs: seq<seq<byte>>, calls: seq<Call>, p: seq<byte>, done: nat): Outcome<(seq<byte>, nat)>
    requires done <= |p|
    decreases calls
  {
    if calls == [] then Done((p, done))
    else
      var c := calls[0];
      if !(c.segment < |segs| && 0 <= c.part.start <= |segs[c.segment]|) then Panic("slice bounds out of range")
      else
        var n := Min(|p| - done, |segs[c.segment]| - c.part.start);
        if n != c.part.length then Panic("did another number of bytes than expected")
        else
          var bytes := segs[c.segment][c.part.start..c.part.start + n];
          ReadCalls(segs, calls[1..], Splice(p, done, bytes), done + n)
  }

  /** What a call asks for, if it stays within the buffer and the argument. */
  ghost predicate Fits(segs: seq<seq<byte>>, c: Call, size: nat) {
    && c.segment < |segs| && 0 <= c.part.start && 0 <= c.part.length <= size
    && c.part.End() <= |segs[c.segment]|
    && Min(size, |segs[c.segment]| - c.part.start) == c.part.length
  }

  function Part(segs: seq<seq<byte>>, c: Call): seq<byte>
    requires c.segment < |segs| && 0 <= c.part.start && 0 <= c.part.length && c.part.End() <= |segs[c.segment]|
  {
    segs[c.segment][c.part.start..c.part.End()]
  }

  lemma ReadFits(segs: seq<seq<byte>>, calls: seq<Call>, p: seq<byte>, done: nat)
    requires calls != [] && done <= |p|
    requires Fits(segs, calls[0], |p| - done) || ReadCalls(segs, calls, p, done).Done?
    ensures Fits(segs, calls[0], |p| - done)
    ensures ReadCalls(segs, calls, p, done) ==
            ReadCalls(segs, calls[1..], Splice(p, done, Part(segs, calls[0])), done + calls[0].part.length)
  {
  }

  lemma ReadNext(segs: seq<seq<byte>>, calls: seq<Call>, k: nat, p: seq<byte>, done: nat)
    requires k < |calls| && done <= |p| && ReadCalls(segs, calls[k..], p, done).Done?
    ensures Fits(segs, calls[k], |p| - done)
    ensures ReadCalls(segs, calls[k..], p, done) ==
            ReadCalls(segs, calls[k + 1..], Splice(p, done, Part(segs, calls[k])), done + calls[k].part.length)
  {
    ReadFits(segs, calls[k..], p, done);
    assert calls[k..][1..] == calls[k + 1..];
  }

  lemma WriteFits(segs: seq<seq<byte>>, calls: seq<Call>, p: seq<byte>)
    requires calls != []
    requires Fits(segs, calls[0], |p|) || WriteCalls(segs, calls, p).Done?
    ensures Fits(segs, calls[0], |p|)
    ensures var c := calls[0];
            WriteCalls(segs, calls, p) ==
            WriteCalls(segs[c.segment := Splice(segs[c.segment], c.part.start, p[..c.part.length])],
                       calls[1..], p[c.part.length..])
  {
  }

  lemma SameLens(segs: seq<seq<byte>>, i: nat, s: seq<byte>)
    requires i < |segs| && |s| == |segs[i]|
    ensures Lens(segs[i := s]) == Lens(segs)
  {
  }

  /** A call that takes what it can is within bounds. */
  lemma TakesFits(segs: seq<seq<byte>>, c: Call, a: nat, size: nat)
    requires Takes(Lens(segs), c, a, a + size)
    ensures Fits(segs, c, size) && Offset(Lens(segs), c.segment) + c.part.start == a
  {
  }

  ghost predicate Wrote(segs: seq<seq<byte>>, a: nat, p: seq<byte>, b: int, r: Outcome<(seq<seq<byte>>, seq<byte>)>) {
    && a <= b <= |Flat(segs, |segs|)| && b <= a + |p|
    && r.Done?
    && var (segs1, rest) := r.value;
       && rest == p[b - a..]
       && Lens(segs1) == Lens(segs)
       && Flat(segs1, |segs1|) == Splice(Flat(segs, |segs|), a, p[..b - a])
  }

  /** Calls that tile a stretch write that stretch. */
  lemma {:induction false} WritesFlat(segs: seq<seq<byte>>, calls: seq<Call>, a: nat, p: seq<byte>, end: int, b: int)
    requires end == a + |p| && Tiles(Lens(segs), calls, a, end, b) && a <= |Flat(segs, |segs|)|
    ensures Wrote(segs, a, p, b, WriteCalls(segs, calls, p))
    decreases calls
  {
    if calls == [] {
      SpliceNothing(Flat(segs, |segs|), a, p[..0]);
    } else {
      var n := calls[0].part.length;
      var segs1 := WritesOne(segs, calls, a, p, end);
      WritesFlat(segs1, calls[1..], a + n, p[n..], end, b);
      WroteMore(segs, a, p, n, b, segs1, WriteCalls(segs1, calls[1..], p[n..]));
    }
  }

  lemma SpliceNothing(f: seq<byte>, off: nat, s: seq<byte>)
    requires off <= |f| && s == []
    ensures Splice(f, off, s) == f
  {
  }

  /** One call writes its share. */
  lemma WritesOne(segs: seq<seq<byte>>, calls: seq<Call>, a: nat, p: seq<byte>, end: int) returns (segs1: seq<seq<byte>>)
    requires calls != [] && end == a + |p| && Takes(Lens(segs), calls[0], a, end)
    ensures var n, f := calls[0].part.length, Flat(segs, |segs|);
            && 0 <= n <= |p| && a + n <= |f|
            && WriteCalls(segs, calls, p) == WriteCalls(segs1, calls[1..], p[n..])
            && Lens(segs1) == Lens(segs) && Flat(segs1, |segs1|) == Splice(f, a, p[..n])
  {
    var c := calls[0];
    var n, i := c.part.length, c.segment;
    TakesFits(segs, c, a, |p|);
    WriteFits(segs, calls, p);
    segs1 := segs[i := Splice(segs[i], c.part.start, p[..n])];
    FlatSplice(segs, segs1, |segs|, i, c.part.start, p[..n], a);
    SameLens(segs, i, segs1[i]);
  }

  lemma WroteMore(segs: seq<seq<byte>>, a: nat, p: seq<byte>, n: nat, b: int, segs1: seq<seq<byte>>,
                  r: Outcome<(seq<seq<byte>>, seq<byte>)>)
    requires n <= |p| && a + n <= |Flat(segs, |segs|)| && Lens(segs1) == Lens(segs)
    requires Flat(segs1, |segs1|) == Splice(Flat(segs, |segs|), a, p[..n])
    requires Wrote(segs1, a + n, p[n..], b, r)
    ensures Wrote(segs, a, p, b, r)
  {
    SpliceTwice(Flat(segs, |segs|), a, p, n, b - a);
    assert p[n..][b - a - n..] == p[b - a..];
  }

  lemma SpliceTwice(f: seq<byte>, a: nat, p: seq<byte>, n: nat, m: nat)
    requires n <= m <= |p| && a + m <= |f|
    ensures Splice(Splice(f, a, p[..n]), a + n, p[n..][..m - n]) == Splice(f, a, p[..m])
  {
    assert p[..n] + p[n..][..m - n] == p[..m];
    var f1 := Splice(f, a, p[..n]);
    assert f1[..a + n] == f[..a] + p[..n];
    assert f1[a + m..] == f[a + m..];
  }

  ghost predicate Fetched(f: seq<byte>, a: nat, p: seq<byte>, done: nat, b: int, r: Outcome<(seq<byte>, nat)>) {
    && a <= b <= |f| && done + b - a <= |p|
    && r == Done((Splice(p, done, f[a..b]), done + b - a))
  }

  lemma FetchedMore(f: seq<byte>, a: nat, p: seq<byte>, done: nat, n: nat, b: int, p1: seq<byte>,
                    r: Outcome<(seq<byte>, nat)>)
    requires a + n <= |f| && done + n <= |p| && p1 == Splice(p, done, f[a..a + n])
    requires Fetched(f, a + n, p1, done + n, b, r)
    ensures Fetched(f, a, p, done, b, r)
  {
    assert f[a..b] == f[a..a + n] + f[a + n..b];
    assert Splice(p1, done + n, f[a + n..b]) == Splice(p, done, f[a..b]);
  }

  lemma ReadsOne(segs: seq<seq<byte>>, f: seq<byte>, calls: seq<Call>, a: nat, p: seq<byte>, done: nat, end: int)
    returns (p1: seq<byte>)
    requires f == Flat(segs, |segs|) && done <= |p| && end == a + |p| - done
    requires calls != [] && Takes(Lens(segs), calls[0], a, end)
    ensures var n := calls[0].part.length;
            && 0 <= n && a + n <= |f| && done + n <= |p| && |p1| == |p|
            && p1 == Splice(p, done, f[a..a + n])
            && ReadCalls(segs, calls, p, done) == ReadCalls(segs, calls[1..], p1, done + n)
  {
    TakesFits(segs, calls[0], a, |p| - done);
    PartIs(segs, f, calls[0], a, |p| - done);
    ReadFits(segs, calls, p, done);
    p1 := Splice(p, done, Part(segs, calls[0]));
  }

  /** What a call asks for, in the whole. */
  lemma PartIs(segs: seq<seq<byte>>, f: seq<byte>, c: Call, a: nat, size: nat)
    requires f == Flat(segs, |segs|) && Fits(segs, c, size) && Offset(Lens(segs), c.segment) + c.part.start == a
    ensures a + c.part.length <= |f| && Part(segs, c) == f[a..a + c.part.length]
  {
    FlatAt(segs, |segs|, c.segment, c.part.start, c.part.length, a);
  }

  /** The calls, the first `done` bytes of the argument being read, tile the stretch from `a` to `b`. */
  ghost predicate Reading(segs: seq<seq<byte>>, f: seq<byte>, calls: seq<Call>, a: nat, p: seq<byte>, done: nat,
                          end: int, b: int)
  {
    && f == Flat(segs, |segs|) && a <= |f| && done <= |p| && end == a + |p| - done
    && Tiles(Lens(segs), calls, a, end, b)
  }

  lemma ReadsStep(segs: seq<seq<byte>>, f: seq<byte>, calls: seq<Call>, a: nat, p: seq<byte>, done: nat,
                  end: int, b: int)
    returns (n: nat, p1: seq<byte>)
    requires calls != [] && Reading(segs, f, calls, a, p, done, end, b)
    ensures a + n <= |f| && done + n <= |p| && p1 == Splice(p, done, f[a..a + n])
    ensures ReadCalls(segs, calls, p, done) == ReadCalls(segs, calls[1..], p1, done + n)
    ensures Reading(segs, f, calls[1..], a + n, p1, done + n, end, b)
  {
    assert Takes(Lens(segs), calls[0], a, end);
    n := calls[0].part.length;
    p1 := ReadsOne(segs, f, calls, a, p, done, end);
  }

  /** Calls that tile a stretch read that stretch. */
  lemma {:induction false} ReadsFlat(segs: seq<seq<byte>>, f: seq<byte>, calls: seq<Call>, a: nat, p: seq<byte>,
                                     done: nat, end: int, b: int)
    requires Reading(segs, f, calls, a, p, done, end, b)
    ensures Fetched(f, a, p, done, b, ReadCalls(segs, calls, p, done))
    decreases calls
  {
    if calls == [] {
      SpliceNothing(p, done, f[a..a]);
    } else {
      var n, p1 := ReadsStep(segs, f, calls, a, p, done, end, b);
      ReadsFlat(segs, f, calls[1..], a + n, p1, done + n, end, b);
      FetchedMore(f, a, p, done, n, b, p1, ReadCalls(segs, calls[1..], p1, done + n));
    }
  }

  lemma ReadsFront(segs: seq<seq<byte>>, calls: seq<Call>, a: nat, p: seq<byte>, end: int, b: int)
    requires end == a + |p| && Tiles(Lens(segs), calls, a, end, b) && a <= |Flat(segs, |segs|)|
    ensures a <= b <= |Flat(segs, |segs|)| && b - a <= |p|
    ensures ReadCalls(segs, calls, p, 0) == Done((Flat(segs, |segs|)[a..b] + p[b - a..], b - a))
  {
    ReadsFlat(segs, Flat(segs, |segs|), calls, a, p, 0, end, b);
    var s := Flat(segs, |segs|)[a..b];
    assert Splice(p, 0, s) == s + p[b - a..];
  }

  // ------------------------------------------------------------- the flat view

  /** How many bytes an access of `size` bytes at `off` finds. */
  function Found(total: nat, off: nat, size: nat): nat {
    if off >= total then 0 else Min(size, total - off)
  }

  lemma ReachFound(off: nat, size: nat, total: nat)
    ensures Reach(off, size, total) == off + Found(total, off, size)
  {
  }

  lemma LocateBeyond(lens: seq<nat>, e: Extent, go: Call -> bool)
    requires e.start > Total(lens)
    ensures Locate(lens, e, go).calls == []
  {
    var first := FirstAfter(lens, e.start);
    if first < |lens| {
      OffsetGrows(lens, first + 1, |lens|);
    }
  }

  lemma LocateFinds(lens: seq<nat>, e: Extent, go: Call -> bool, end: int, b: int)
    requires e.start >= 0 && e.length >= 0 && Goes(go)
    requires end == e.End() && b == e.start + Found(Total(lens), e.start, e.length)
    ensures Tiles(lens, Locate(lens, e, go).calls, e.start, end, b)
  {
    LocateTiles(lens, e, go);
    ReachFound(e.start, e.length, Total(lens));
  }

  ghost function Whole(segs: seq<seq<byte>>): seq<byte> {
    Flat(segs, |segs|)
  }

  /** Writing through the index is writing into the concatenation, as far as it goes. */
  lemma WriteIsFlat(segs: seq<seq<byte>>, off: nat, p: seq<byte>, go: Call -> bool, calls: seq<Call>, n: nat)
    requires Goes(go) && calls == Locate(Lens(segs), Extent(off, |p|), go).calls
    requires n == Found(|Whole(segs)|, off, |p|)
    ensures var r := WriteCalls(segs, calls, p);
            && r.Done? && r.value.1 == p[n..] && Lens(r.value.0) == Lens(segs)
            && Whole(r.value.0) == (if off >= |Whole(segs)| then Whole(segs) else Splice(Whole(segs), off, p[..n]))
  {
    var e := Extent(off, |p|);
    if off <= |Whole(segs)| {
      LocateFinds(Lens(segs), e, go, off + |p|, off + n);
      WritesFlat(segs, calls, off, p, off + |p|, off + n);
      assert Splice(Whole(segs), off, p[..0]) == Whole(segs);
    } else {
      LocateBeyond(Lens(segs), e, go);
    }
  }

  /** The argument with `n` bytes from `off` on read into it. */
  ghost function ReadInto(f: seq<byte>, off: nat, n: nat, p: seq<byte>): seq<byte>
    requires n <= |p| && (off < |f| ==> off + n <= |f|)
  {
    if off >= |f| then p else f[off..off + n] + p[n..]
  }

  lemma NothingRead(f: seq<byte>, off: nat, p: seq<byte>)
    requires off <= |f|
    ensures f[off..off] + p[0..] == p
  {
  }

  /** Reading through the index is reading the concatenation, as far as it goes. */
  lemma ReadIsFlat(segs: seq<seq<byte>>, off: nat, p: seq<byte>, go: Call -> bool, calls: seq<Call>, n: nat)
    requires Goes(go) && calls == Locate(Lens(segs), Extent(off, |p|), go).calls
    requires n == Found(|Whole(segs)|, off, |p|)
    ensures ReadCalls(segs, calls, p, 0) == Done((ReadInto(Whole(segs), off, n, p), n))
  {
    var e := Extent(off, |p|);
    if off <= |Whole(segs)| {
      LocateFinds(Lens(segs), e, go, off + |p|, off + n);
      ReadsFront(segs, calls, off, p, off + |p|, off + n);
      NothingRead(Whole(segs), off, p);
    } else {
      LocateBeyond(Lens(segs), e, go);
    }
  }

  class MMapSpan {
    var mMaps: seq<array<byte>>
    var segmentLocater: seq<Extent>

    ghost function Contents(): (r: seq<seq<byte>>)
      reads this, mMaps
    {
      seq(|mMaps|, i requires 0 <= i < |mMaps| reads this, mMaps => mMaps[i][..])
    }

    ghost predicate Valid()
      reads this, mMaps
    {
      && (forall i, j | 0 <= i < j < |mMaps| :: mMaps[i] != mMaps[j])
      && Indexes(segmentLocater, Lens(Contents()))
    }

    /** Rebuild the index after buffers have been appended. */
    method InitIndex()
      requires forall i, j | 0 <= i < j < |mMaps| :: mMaps[i] != mMaps[j]
      modifies this`segmentLocater
      ensures Valid() && Contents() == old(Contents())
    {
      var lens: seq<nat> := [];
      var i := 0;
      while i < |mMaps|
        invariant 0 <= i <= |mMaps| && |lens| == i
        invariant forall j | 0 <= j < i :: lens[j] == mMaps[j].Length
      {
        lens := lens + [mMaps[i].Length];
        i := i + 1;
      }
      ghost var was := Contents();
      assert lens == Lens(was);
      segmentLocater := NewIndex(lens);
      assert Contents() == was;
    }

    /** Copy the front of `p` into a buffer. */
    method CopyIn(i: nat, start: nat, p: seq<byte>) returns (n: nat)
      requires Valid() && i < |mMaps| && start <= mMaps[i].Length
      modifies mMaps
      ensures n == Min(|p|, mMaps[i].Length - start)
      ensures Contents() == old(Contents())[i := Splice(old(Contents()[i]), start, p[..n])]
      ensures Valid()
    {
      var a := mMaps[i];
      ghost var was := Contents();
      n := Min(|p|, a.Length - start);
      forall k | 0 <= k < n {
        a[start + k] := p[k];
      }
      assert a[..] == Splice(was[i], start, p[..n]);
      forall j | 0 <= j < |mMaps|
        ensures mMaps[j][..] == was[i := Splice(was[i], start, p[..n])][j]
      {
        if j != i {
          assert mMaps[j] != a;
        }
      }
      assert Contents() == was[i := Splice(was[i], start, p[..n])];
      SameLens(was, i, a[..]);
    }

    /** Writes equal an update of the concatenation; a short write is reported. */
    method WriteAt(p: seq<byte>, off: nat) returns (n: nat, ok: bool)
      requires Valid()
      modifies mMaps
      ensures Valid()
      ensures n == Found(|old(Whole(Contents()))|, off, |p|) && (ok <==> n == |p|)
      ensures Whole(Contents()) == if off >= |old(Whole(Contents()))| then old(Whole(Contents()))
                                   else Splice(old(Whole(Contents())), off, p[..n])
    {
      ghost var was := Contents();
      var located := LocateLoop(segmentLocater, Lens(was), Extent(off, |p|), c => true);
      WriteIsFlat(was, off, p, c => true, located.calls, Found(|Whole(was)|, off, |p|));
      n := StoreCalls(located.calls, p);
      ok := n == |p|;
    }

    /** Answer the calls of one write. */
    method StoreCalls(calls: seq<Call>, p: seq<byte>) returns (n: nat)
      requires Valid() && WriteCalls(Contents(), calls, p).Done?
      modifies mMaps
      ensures Valid()
      ensures n <= |p| && WriteCalls(old(Contents()), calls, p) == Done((Contents(), p[n..]))
    {
      ghost var r := WriteCalls(Contents(), calls, p);
      n := 0;
      var rest, k := p, 0;
      while k < |calls|
        invariant Valid() && 0 <= k <= |calls| && n <= |p| && rest == p[n..]
        invariant WriteCalls(Contents(), calls[k..], rest) == r
      {
        var c := calls[k];
        assert calls[k..][0] == c && calls[k..][1..] == calls[k + 1..];
        WriteFits(Contents(), calls[k..], rest);
        var m := CopyIn(c.segment, c.part.start, rest);
        assert m == c.part.length;
        rest, n := rest[m..], n + m;
        k := k + 1;
      }
    }

    /** Reads equal a slice of the concatenation; the rest of the argument stays. */
    method ReadAt(p: array<byte>, off: nat) returns (n: nat, ok: bool)
      requires Valid() && p !in mMaps
      modifies p
      ensures Valid() && Contents() == old(Contents())
      ensures n == Found(|Whole(Contents())|, off, p.Length) && (ok <==> n == p.Length)
      ensures p[..] == ReadInto(Whole(Contents()), off, n, old(p[..]))
    {
      ghost var was, before := Contents(), p[..];
      var located := LocateLoop(segmentLocater, Lens(was), Extent(off, p.Length), c => true);
      ReadIsFlat(was, off, before, c => true, located.calls, Found(|Whole(was)|, off, p.Length));
      n := CopyCalls(located.calls, p);
      ok := n == p.Length;
    }

    /** Answer the calls of one read. */
    method CopyCalls(calls: seq<Call>, p: array<byte>) returns (n: nat)
      requires Valid() && p !in mMaps && ReadCalls(Contents(), calls, p[..], 0).Done?
      modifies p
      ensures Valid() && Contents() == old(Contents())
      ensures ReadCalls(Contents(), calls, old(p[..]), 0) == Done((p[..], n))
    {
      ghost var segs, r := Contents(), ReadCalls(Contents(), calls, p[..], 0);
      n := 0;
      var k := 0;
      while k < |calls|
        invariant Valid() && Contents() == segs && 0 <= k <= |calls| && n <= p.Length
        invariant ReadCalls(segs, calls[k..], p[..], n) == r
      {
        ghost var p0 := p[..];
        ReadNext(segs, calls, k, p0, n);
        var m := CopyOut(calls[k], p, n);
        assert p[..] == Splice(p0, n, Part(segs, calls[k]));
        n := n + m;
        k := k + 1;
      }
    }

    /** Copy from a buffer into the argument: as many bytes as the call says. */
    method CopyOut(c: Call, p: array<byte>, done: nat) returns (n: nat)
      requires Valid() && p !in mMaps && done <= p.Length && Fits(Contents(), c, p.Length - done)
      modifies p
      ensures Valid() && Contents() == old(Contents())
      ensures n == c.part.length && p[..] == Splice(old(p[..]), done, Part(Contents(), c))
    {
      var a, start := mMaps[c.segment], c.part.start;
      n := Min(p.Length - done, a.Length - start);
      ghost var was := Contents();
      forall k | 0 <= k < n {
        p[done + k] := a[start + k];
      }
      assert Contents() == was;
    }
  }
}
