/** Byte totals computed from a few counts, against adding up chunk by chunk and piece by piece. */
module ByteAccounting {
  import opened Common
  import opened Division
  import opened ChunkGeometry
  import opened Bitmaps
  import opened Readers

  // ------------------------------------------------------------ dirty bytes

  function PieceIndexOffset(l: Layout, i: int): int
    requires l.chunk > 0
  {
    U32(U32(i) * ChunksPerRegularPiece(l))
  }

  function NumDirtyChunks(l: Layout, dirty: set<nat>, i: int): int
    requires l.chunk > 0
  {
    U32(RangeCardinality(dirty, PieceIndexOffset(l, i), PieceIndexOffset(l, i + 1)))
  }

  function NumDirtyBytes(l: Layout, dirty: set<nat>, i: int): int
    requires l.pieceLen > 0 && l.chunk > 0
  {
    var last := PieceNumChunks(l, i) - 1;
    DirtyTotal(NumDirtyChunks(l, dirty, i), U32(PieceIndexOffset(l, i) + last) in dirty,
               ChunkIndexSpec(last, PieceLength(l, i), l.chunk).1, l.chunk)
  }

  /** Chunks of the regular size, and the last one if it is among them. */
  function DirtyTotal(count: int, lastDirty: bool, lastLength: int, chunk: int): int {
    if lastDirty then U32(lastLength + (count - 1) * chunk) else U32(count * chunk)
  }

  lemma WrapAdd(x: int, q: int)
    ensures U32(x + q * TWO32) == U32(x)
  {
    Quotient(x, TWO32);
    QuotientIs(x + q * TWO32, TWO32, x / TWO32 + q);
  }

  lemma WrapTimes(x: int, d: int, y: int)
    ensures U32(U32(x) * d + y) == U32(x * d + y)
  {
    Quotient(x, TWO32);
    var q := x / TWO32;
    calc {
      x * d;
      (U32(x) + q * TWO32) * d;
      U32(x) * d + q * d * TWO32;
    }
    WrapAdd(U32(x) * d + y, q * d);
  }

  /** Taking `e` away or adding it goes unnoticed if and only if it is a multiple of 2^32. */
  lemma WrapUnnoticed(x: int, e: int)
    requires 0 <= x < TWO32
    ensures U32(x - e) == x <==> U32(e) == 0
    ensures U32(x + e) == x <==> U32(e) == 0
  {
    Quotient(e, TWO32);
    WrapAdd(x - U32(e), -(e / TWO32));
    WrapAdd(x + U32(e), e / TWO32);
  }

  /** With `missed` chunks too few counted, their regular size is missing from the total. */
  lemma DirtyTotalIs(n: int, missed: int, lastDirty: bool, lastLength: int, chunk: int, c: int, total: int)
    requires n == c + if lastDirty then 1 else 0
    requires total == c * chunk + if lastDirty then lastLength else 0
    ensures DirtyTotal(U32(n - missed), lastDirty, lastLength, chunk) == U32(total - missed * chunk)
  {
    var x := n - missed;
    WrapTimes(x, chunk, if lastDirty then lastLength - chunk else 0);
    assert x * chunk == c * chunk + (if lastDirty then chunk else 0) - missed * chunk;
    assert (U32(x) - 1) * chunk == U32(x) * chunk - chunk;
  }

  /** Only chunks that exist are dirty. */
  ghost predicate DirtyOk(l: Layout, dirty: set<nat>)
    requires SizesFit(l)
  {
    forall r | r in dirty :: r < Count(l)
  }

  /** The bytes of the first `k` chunks of a piece that are dirty, or that are not. */
  ghost function ChunkBytes(l: Layout, dirty: set<nat>, i: int, k: nat, want: bool): int
    requires l.pieceLen > 0 && l.chunk > 0
  {
    if k == 0 then 0
    else
      ChunkBytes(l, dirty, i, k - 1, want) +
      if (i * l.PerPiece() + k - 1 in dirty) == want then Req(l, i, k - 1).length else 0
  }

  /** All chunks together have the length of the piece. */
  lemma {:induction false} ChunkBytesAddUp(l: Layout, dirty: set<nat>, i: int, k: nat)
    requires Fits(l) && 0 <= i < l.NumPieces() && k <= Chunks(l, i)
    ensures ChunkBytes(l, dirty, i, k, true) + ChunkBytes(l, dirty, i, k, false) == Min(k * l.chunk, Length(l, i))
  {
    if k == 0 {
      LengthIs(l, i);
    } else {
      ChunkBytesAddUp(l, dirty, i, k - 1);
      ChunkInside(l, i, k - 1);
      assert k * l.chunk == (k - 1) * l.chunk + l.chunk;
    }
  }

  /** All but the last chunk are of the full size, so they can be counted. */
  lemma {:induction false} RegularBytes(l: Layout, dirty: set<nat>, i: int, k: nat)
    requires Fits(l) && 0 <= i < l.NumPieces() && k < Chunks(l, i) && i * l.PerPiece() >= 0
    ensures ChunkBytes(l, dirty, i, k, true) == |Between(dirty, i * l.PerPiece(), i * l.PerPiece() + k)| * l.chunk
  {
    var from: nat := i * l.PerPiece();
    if k == 0 {
      assert Between(dirty, from, from) == {};
    } else {
      RegularBytes(l, dirty, i, k - 1);
      ChunkInside(l, i, k);
      NextMultiple(k - 1, l.chunk);
      assert Req(l, i, k - 1).length == l.chunk;
      BetweenMore(dirty, from, from + k - 1);
      NextMultiple(|Between(dirty, from, from + k - 1)|, l.chunk);
    }
  }

  lemma OffsetWraps(l: Layout, i: int)
    requires SizesFit(l)
    ensures PieceIndexOffset(l, i) == U32(i * l.PerPiece())
  {
    PerPieceIs(l);
    WrapTimes(i, l.PerPiece(), 0);
  }

  lemma PerPieceFits(l: Layout)
    requires SizesFit(l)
    ensures 0 < l.PerPiece() < TWO32
  {
    PerPieceIs(l);
    CeilAbove(l.pieceLen, l.chunk, l.pieceLen);
    Times(1, l.chunk, l.pieceLen);
  }

  lemma OffsetBelow(l: Layout, i: int)
    requires Fits(l) && 0 <= i < l.NumPieces()
    ensures 0 <= i * l.PerPiece() < Count(l) <= TWO32
  {
    PerPieceIs(l);
    ChunksAre(l, i);
    Times(0, i, l.PerPiece());
    IndexNames(l, i * l.PerPiece(), i, 0);
  }

  /** Where the indices of a piece start, and where those of the next one would. */
  lemma OffsetsAre(l: Layout, i: int)
    requires Fits(l) && 0 <= i < l.NumPieces()
    ensures 0 <= i * l.PerPiece() < TWO32 && i * l.PerPiece() < (i + 1) * l.PerPiece() < 2 * TWO32
    ensures PieceIndexOffset(l, i) == i * l.PerPiece() && PieceIndexOffset(l, i + 1) == U32((i + 1) * l.PerPiece())
    ensures i + 1 < l.NumPieces() ==> (i + 1) * l.PerPiece() < TWO32
  {
    PerPieceFits(l);
    OffsetBelow(l, i);
    Unwrapped(i * l.PerPiece());
    OffsetWraps(l, i);
    OffsetWraps(l, i + 1);
    NextMultiple(i, l.PerPiece());
    if i + 1 < l.NumPieces() {
      OffsetBelow(l, i + 1);
    }
  }

  /**
   * How many dirty chunks are overlooked when the index after the last one of the piece wraps around:
   * all that are not below the number it wraps to.
   */
  ghost function Overlooked(l: Layout, dirty: set<nat>, i: nat): nat
    requires SizesFit(l)
  {
    var end := (i + 1) * l.PerPiece();
    if end <= TWO32 then 0 else |Between(dirty, end - TWO32, TWO32)|
  }

  /** No index of a piece beyond its chunks is dirty. */
  lemma DirtyInPiece(l: Layout, dirty: set<nat>, i: int, r: nat)
    requires Fits(l) && DirtyOk(l, dirty) && 0 <= i < l.NumPieces() && r in dirty
    requires i * l.PerPiece() <= r < (i + 1) * l.PerPiece()
    ensures r < i * l.PerPiece() + Chunks(l, i)
  {
    assert (i + 1) * l.PerPiece() == i * l.PerPiece() + l.PerPiece();
    IndexNames(l, r, i, r - i * l.PerPiece());
  }

  /** The dirty chunks of a piece are those between the start of its indices and the start of the next. */
  lemma DirtyChunksAre(l: Layout, dirty: set<nat>, i: int, from: nat, to: nat)
    requires Fits(l) && DirtyOk(l, dirty) && IsBitmap(dirty) && 0 <= i < l.NumPieces()
    requires from == i * l.PerPiece() && to == (i + 1) * l.PerPiece()
    ensures Chunks(l, i) >= 0 && Between(dirty, from, Min(to, TWO32)) == Between(dirty, from, from + Chunks(l, i))
  {
    ChunksAre(l, i);
    NextMultiple(i, l.PerPiece());
    forall r | r in Between(dirty, from, to)
      ensures r < from + Chunks(l, i)
    {
      DirtyInPiece(l, dirty, i, r);
    }
  }

  lemma WrapTwice(x: int)
    ensures U32(U64(x)) == U32(x)
  {
    Quotient(x, TWO64);
    WrapAdd(U64(x), x / TWO64 * TWO32);
  }

  lemma RanksCount(dirty: set<nat>, from: nat, to: nat, missed: int)
    requires IsBitmap(dirty) && from < TWO32 && from <= to < 2 * TWO32 && to > 0
    requires missed == if to <= TWO32 then 0 else |Between(dirty, to - TWO32, TWO32)|
    ensures U32(RangeCardinality(dirty, from, U32(to))) == U32(|Between(dirty, from, Min(to, TWO32))| - missed)
  {
    TopIs(to);
    CardinalityIs(dirty, from, to);
    WrapTwice(|Between(dirty, 0, Top(to))| - |Between(dirty, 0, from)|);
    BetweenSplit(dirty, 0, from, Min(to, TWO32));
    BetweenSplit(dirty, 0, Top(to), Min(to, TWO32));
  }

  /** The number of dirty chunks of a piece, less those overlooked. */
  lemma DirtyCount(l: Layout, dirty: set<nat>, i: nat)
    requires Fits(l) && DirtyOk(l, dirty) && IsBitmap(dirty) && i < l.NumPieces() && i * l.PerPiece() >= 0
    ensures Chunks(l, i) >= 0
    ensures NumDirtyChunks(l, dirty, i) ==
            U32(|Between(dirty, i * l.PerPiece(), i * l.PerPiece() + Chunks(l, i))| - Overlooked(l, dirty, i))
  {
    OffsetsAre(l, i);
    DirtyChunksAre(l, dirty, i, i * l.PerPiece(), (i + 1) * l.PerPiece());
    RanksCount(dirty, i * l.PerPiece(), (i + 1) * l.PerPiece(), Overlooked(l, dirty, i));
  }

  lemma OverlookedFits(l: Layout, dirty: set<nat>, i: nat)
    requires Fits(l) && i < l.NumPieces()
    ensures 0 <= Overlooked(l, dirty, i) < TWO32
    ensures i + 1 < l.NumPieces() ==> Overlooked(l, dirty, i) == 0
  {
    OffsetsAre(l, i);
    var end := (i + 1) * l.PerPiece();
    if end > TWO32 {
      SmallSet(dirty, end - TWO32, TWO32);
    }
  }

  lemma OverlookedNone(l: Layout, dirty: set<nat>, i: nat)
    requires SizesFit(l)
    ensures Overlooked(l, dirty, i) == 0 <==>
            (i + 1) * l.PerPiece() <= TWO32 || Between(dirty, (i + 1) * l.PerPiece() - TWO32, TWO32) == {}
  {
  }

  /** The dirty chunks of a piece are counted right if and only if none is overlooked. */
  lemma DirtyCountRightIff(l: Layout, dirty: set<nat>, i: nat)
    requires Fits(l) && DirtyOk(l, dirty) && IsBitmap(dirty) && i < l.NumPieces()
    ensures i * l.PerPiece() >= 0 && Chunks(l, i) >= 0
    ensures NumDirtyChunks(l, dirty, i) == |Between(dirty, i * l.PerPiece(), i * l.PerPiece() + Chunks(l, i))| <==>
            (i + 1) * l.PerPiece() <= TWO32 || Between(dirty, (i + 1) * l.PerPiece() - TWO32, TWO32) == {}
  {
    OffsetsAre(l, i);
    ChunksAre(l, i);
    DirtyCount(l, dirty, i);
    OverlookedFits(l, dirty, i);
    OverlookedNone(l, dirty, i);
    PerPieceFits(l);
    var from: nat := i * l.PerPiece();
    SmallSet(dirty, from, from + Chunks(l, i));
    FewerNoticed(|Between(dirty, from, from + Chunks(l, i))|, Overlooked(l, dirty, i));
  }

  lemma FewerNoticed(n: int, missed: int)
    requires 0 <= n < TWO32 && 0 <= missed < TWO32
    ensures U32(n - missed) == n <==> missed == 0
  {
  }

  lemma ByCounting(l: Layout, dirty: set<nat>, i: int, from: nat, last: nat, total: int)
    requires Fits(l) && DirtyOk(l, dirty) && IsBitmap(dirty) && 0 <= i < l.NumPieces()
    requires from == i * l.PerPiece() && last == Chunks(l, i) - 1
    requires total == |Between(dirty, from, from + last)| * l.chunk +
                      if from + last in dirty then Req(l, i, last).length else 0
    ensures NumDirtyBytes(l, dirty, i) == U32(total - Overlooked(l, dirty, i) * l.chunk)
  {
    OffsetsAre(l, i);
    LastFits(l, i, from, last);
    LastLength(l, i, last);
    DirtyCount(l, dirty, i);
    BetweenMore(dirty, from, from + last);
    DirtyTotalIs(|Between(dirty, from, from + last + 1)|, Overlooked(l, dirty, i), from + last in dirty,
                 Req(l, i, last).length, l.chunk, |Between(dirty, from, from + last)|, total);
  }

  lemma LastLength(l: Layout, i: int, last: nat)
    requires Fits(l) && 0 <= i < l.NumPieces() && last == Chunks(l, i) - 1
    ensures PieceNumChunks(l, i) - 1 == last
    ensures ChunkIndexSpec(last, PieceLength(l, i), l.chunk).1 == Req(l, i, last).length
  {
    PieceNumChunksIs(l, i);
    PieceLengthIs(l, i);
    ChunkInside(l, i, last);
    SpecIs(last, Length(l, i), l.chunk);
  }

  lemma LastFits(l: Layout, i: int, from: nat, last: nat)
    requires Fits(l) && 0 <= i < l.NumPieces() && from == i * l.PerPiece() && last == Chunks(l, i) - 1
    ensures U32(from + last) == from + last
  {
    ChunksAre(l, i);
    IndexNames(l, from + last, i, last);
    Unwrapped(from + last);
  }

  lemma ByAdding(l: Layout, dirty: set<nat>, i: int, from: nat, last: nat)
    requires Fits(l) && 0 <= i < l.NumPieces() && from == i * l.PerPiece() && last == Chunks(l, i) - 1
    ensures ChunkBytes(l, dirty, i, last + 1, true) ==
            |Between(dirty, from, from + last)| * l.chunk + if from + last in dirty then Req(l, i, last).length else 0
  {
    RegularBytes(l, dirty, i, last);
  }

  /**
   * The number of dirty bytes is the length of the dirty chunks together, if and only if the chunks
   * overlooked add up to nothing, in 32 bits.
   */
  lemma DirtyBytesRightIff(l: Layout, dirty: set<nat>, i: nat)
    requires Fits(l) && DirtyOk(l, dirty) && IsBitmap(dirty) && i < l.NumPieces()
    ensures Chunks(l, i) >= 0
    ensures NumDirtyBytes(l, dirty, i) ==
            U32(ChunkBytes(l, dirty, i, Chunks(l, i), true) - Overlooked(l, dirty, i) * l.chunk)
    ensures NumDirtyBytes(l, dirty, i) == ChunkBytes(l, dirty, i, Chunks(l, i), true) <==>
            U32(Overlooked(l, dirty, i) * l.chunk) == 0
  {
    OffsetsAre(l, i);
    ChunksAre(l, i);
    ByAdding(l, dirty, i, i * l.PerPiece(), Chunks(l, i) - 1);
    DirtyBytesFit(l, dirty, i);
    var total := ChunkBytes(l, dirty, i, Chunks(l, i), true);
    ByCounting(l, dirty, i, i * l.PerPiece(), Chunks(l, i) - 1, total);
    WrapUnnoticed(total, Overlooked(l, dirty, i) * l.chunk);
  }

  lemma {:induction false} BytesNotNegative(l: Layout, dirty: set<nat>, i: int, k: nat, want: bool)
    requires Fits(l) && 0 <= i < l.NumPieces() && k <= Chunks(l, i)
    ensures ChunkBytes(l, dirty, i, k, want) >= 0
  {
    if k == 0 {
    } else {
      BytesNotNegative(l, dirty, i, k - 1, want);
      ChunkInside(l, i, k - 1);
    }
  }

  lemma DirtyBytesFit(l: Layout, dirty: set<nat>, i: int)
    requires Fits(l) && 0 <= i < l.NumPieces() && Chunks(l, i) >= 0
    ensures 0 <= ChunkBytes(l, dirty, i, Chunks(l, i), true) < TWO32
  {
    ChunkBytesAddUp(l, dirty, i, Chunks(l, i));
    BytesNotNegative(l, dirty, i, Chunks(l, i), true);
    BytesNotNegative(l, dirty, i, Chunks(l, i), false);
    LengthIs(l, i);
  }

  // ------------------------------------------------------------- bytes left

  /** A byte of the data that is still to be fetched. */
  ghost predicate MissingByte(s: Store, x: int)
    requires s.layout.pieceLen > 0 && s.layout.chunk > 0
  {
    OffsetRequest(s.layout, x).Some? && !HaveChunk(s, OffsetRequest(s.layout, x).value)
  }

  /** The number of bytes from `a` to `b` that are still to be fetched. */
  ghost function Missing(s: Store, a: int, b: int): int
    requires s.layout.pieceLen > 0 && s.layout.chunk > 0
    decreases b - a
  {
    if a >= b then 0 else Missing(s, a, b - 1) + if MissingByte(s, b - 1) then 1 else 0
  }

  lemma {:induction false} MissingSplit(s: Store, a: int, b: int, c: int)
    requires s.layout.pieceLen > 0 && s.layout.chunk > 0 && a <= b <= c
    ensures Missing(s, a, c) == Missing(s, a, b) + Missing(s, b, c)
    decreases c - b
  {
    if b >= c {
    } else {
      MissingSplit(s, a, b, c - 1);
    }
  }

  lemma {:induction false} MissingSame(s: Store, a: int, b: int, all: bool)
    requires s.layout.pieceLen > 0 && s.layout.chunk > 0
    requires a <= b && forall x | a <= x < b :: MissingByte(s, x) == all
    ensures Missing(s, a, b) == if all then b - a else 0
    decreases b - a
  {
    if a >= b {
    } else {
      MissingSame(s, a, b - 1, all);
    }
  }

  /** The bytes of a chunk are missing together. */
  lemma MissingChunk(s: Store, i: int, k: int)
    requires Fits(s.layout) && 0 <= i < s.layout.NumPieces() && 0 <= k < Chunks(s.layout, i)
    ensures var l := s.layout;
            var r := Req(l, i, k);
            Missing(s, Start(l, r), End(l, r)) ==
            if i in s.complete || i * l.PerPiece() + k in s.dirty then 0 else r.length
  {
    var l := s.layout;
    var r := Req(l, i, k);
    ChunkInside(l, i, k);
    FitsAddressable(l);
    NamedIsBelow(l, i * l.PerPiece() + k, i, k);
    FromRequestIs(l, i * l.PerPiece() + k, i, k);
    var all := !(i in s.complete || i * l.PerPiece() + k in s.dirty);
    forall x | Start(l, r) <= x < End(l, r)
      ensures MissingByte(s, x) == all
    {
      RequestOfByte(l, i, k, x);
    }
    MissingSame(s, Start(l, r), End(l, r), all);
  }

  /** Where the first `k` chunks of a piece end. */
  ghost function Reached(l: Layout, i: int, k: int): int
    requires l.pieceLen > 0
  {
    i * l.pieceLen + Min(k * l.chunk, Length(l, i))
  }

  lemma ReachedIs(l: Layout, i: int, k: int)
    requires Fits(l) && 0 <= i < l.NumPieces() && 0 < k <= Chunks(l, i)
    ensures Reached(l, i, k - 1) == Start(l, Req(l, i, k - 1)) < Reached(l, i, k) == End(l, Req(l, i, k - 1))
    ensures i * l.pieceLen <= Reached(l, i, k - 1)
  {
    ChunkInside(l, i, k - 1);
    ReqEnd(l, i, k - 1);
  }

  lemma {:induction false} MissingInPiece(s: Store, i: int, k: nat)
    requires Fits(s.layout) && 0 <= i < s.layout.NumPieces() && k <= Chunks(s.layout, i)
    ensures Missing(s, i * s.layout.pieceLen, Reached(s.layout, i, k)) ==
            if i in s.complete then 0 else ChunkBytes(s.layout, s.dirty, i, k, false)
  {
    var l := s.layout;
    LengthIs(l, i);
    if k == 0 {
    } else {
      MissingInPiece(s, i, k - 1);
      MissingChunk(s, i, k - 1);
      ReachedIs(l, i, k);
      MissingSplit(s, i * l.pieceLen, Reached(l, i, k - 1), Reached(l, i, k));
    }
  }

  /** What is left of a piece, as the program computes it: its length less the dirty bytes. */
  function LeftOf(l: Layout, dirty: set<nat>, i: int): int
    requires l.pieceLen > 0 && l.chunk > 0
  {
    U32(PieceLength(l, i) - NumDirtyBytes(l, dirty, i))
  }

  lemma LeftIs(length: int, dirty: int, e: int)
    ensures U32(length - U32(dirty - e)) == U32(length - dirty + e)
  {
    Quotient(dirty - e, TWO32);
    WrapAdd(length - dirty + e, (dirty - e) / TWO32);
  }

  lemma LeftRightIff(length: int, dirty: int, missing: int, e: int, counted: int)
    requires 0 <= dirty && 0 <= missing && dirty + missing == length < TWO32 && counted == U32(dirty - e)
    ensures U32(length - counted) == missing <==> U32(e) == 0
  {
    LeftIs(length, dirty, e);
    WrapUnnoticed(missing, e);
  }

  /** The bytes still to be fetched of an incomplete piece, computed right if and only if its dirty bytes are. */
  lemma PieceLeftIff(s: Store, i: nat)
    requires Fits(s.layout) && DirtyOk(s.layout, s.dirty) && IsBitmap(s.dirty) && i < s.layout.NumPieces()
    ensures var l := s.layout;
            var missing := Missing(s, i * l.pieceLen, i * l.pieceLen + Length(l, i));
            && (i in s.complete ==> missing == 0)
            && (i !in s.complete ==>
                (LeftOf(l, s.dirty, i) == missing <==> U32(Overlooked(l, s.dirty, i) * l.chunk) == 0))
  {
    var l := s.layout;
    ChunksAre(l, i);
    MissingOf(s, i);
    BytesAddUp(l, s.dirty, i);
    DirtyBytesRightIff(l, s.dirty, i);
    LeftRightIff(Length(l, i), ChunkBytes(l, s.dirty, i, Chunks(l, i), true),
                 ChunkBytes(l, s.dirty, i, Chunks(l, i), false), Overlooked(l, s.dirty, i) * l.chunk,
                 NumDirtyBytes(l, s.dirty, i));
  }

  /** All the chunks of a piece, dirty and clean, have its length. */
  lemma BytesAddUp(l: Layout, dirty: set<nat>, i: nat)
    requires Fits(l) && i < l.NumPieces() && Chunks(l, i) >= 0
    ensures var sum, rest := ChunkBytes(l, dirty, i, Chunks(l, i), true), ChunkBytes(l, dirty, i, Chunks(l, i), false);
            0 <= sum && 0 <= rest && sum + rest == Length(l, i) == PieceLength(l, i) < TWO32
  {
    PieceLengthIs(l, i);
    LengthIs(l, i);
    ChunkBytesAddUp(l, dirty, i, Chunks(l, i));
    CeilAbove(Length(l, i), l.chunk, Chunks(l, i));
    BytesNotNegative(l, dirty, i, Chunks(l, i), true);
    BytesNotNegative(l, dirty, i, Chunks(l, i), false);
  }

  /** What is missing of a piece are its clean chunks, unless it is complete. */
  lemma MissingOf(s: Store, i: nat)
    requires Fits(s.layout) && i < s.layout.NumPieces() && Chunks(s.layout, i) >= 0
    ensures Missing(s, i * s.layout.pieceLen, i * s.layout.pieceLen + Length(s.layout, i)) ==
            if i in s.complete then 0 else ChunkBytes(s.layout, s.dirty, i, Chunks(s.layout, i), false)
  {
    MissingInPiece(s, i, Chunks(s.layout, i));
    CeilAbove(Length(s.layout, i), s.layout.chunk, Chunks(s.layout, i));
  }

  /** The piece is complete, or the chunks overlooked in it add up to nothing, in 32 bits. */
  ghost predicate Counted(s: Store, i: nat)
    requires SizesFit(s.layout)
  {
    i in s.complete || U32(Overlooked(s.layout, s.dirty, i) * s.layout.chunk) == 0
  }

  ghost predicate LastCounted(s: Store)
    requires SizesFit(s.layout)
  {
    s.layout.NumPieces() > 0 ==> Counted(s, s.layout.NumPieces() - 1)
  }

  /** The bytes missing up to the end of a piece. */
  lemma MissingUpTo(s: Store, i: nat)
    requires s.layout.pieceLen > 0 && s.layout.chunk > 0 && i < s.layout.NumPieces()
    ensures var l := s.layout;
            && 0 <= i * l.pieceLen == Min(i * l.pieceLen, l.total)
            && Min((i + 1) * l.pieceLen, l.total) == i * l.pieceLen + Length(l, i)
            && Missing(s, 0, Min((i + 1) * l.pieceLen, l.total)) ==
               Missing(s, 0, Min(i * l.pieceLen, l.total)) +
               Missing(s, i * l.pieceLen, i * l.pieceLen + Length(l, i))
  {
    var l := s.layout;
    LengthIs(l, i);
    Times(0, i, l.pieceLen);
    NextMultiple(i, l.pieceLen);
    MissingSplit(s, 0, i * l.pieceLen, i * l.pieceLen + Length(l, i));
  }

  /** Only the last piece can be counted wrong. */
  lemma CountedIs(s: Store, i: nat)
    requires Fits(s.layout) && i < s.layout.NumPieces()
    ensures Counted(s, i) <==> i + 1 < s.layout.NumPieces() || LastCounted(s)
  {
    OverlookedFits(s.layout, s.dirty, i);
    if i + 1 < s.layout.NumPieces() {
      assert Overlooked(s.layout, s.dirty, i) * s.layout.chunk == 0;
    }
  }

  lemma PieceCounted(s: Store, i: nat, added: int)
    requires Fits(s.layout) && DirtyOk(s.layout, s.dirty) && IsBitmap(s.dirty) && i < s.layout.NumPieces()
    requires added == if i in s.complete then 0 else LeftOf(s.layout, s.dirty, i)
    ensures added == Missing(s, i * s.layout.pieceLen, i * s.layout.pieceLen + Length(s.layout, i)) <==> Counted(s, i)
  {
    PieceLeftIff(s, i);
  }

  lemma LeftStep(s: Store, i: nat, left: int, added: int)
    requires Fits(s.layout) && DirtyOk(s.layout, s.dirty) && IsBitmap(s.dirty) && i < s.layout.NumPieces()
    requires left == Missing(s, 0, Min(i * s.layout.pieceLen, s.layout.total))
    requires added == if i in s.complete then 0 else LeftOf(s.layout, s.dirty, i)
    ensures left + added == Missing(s, 0, Min((i + 1) * s.layout.pieceLen, s.layout.total)) <==>
            i + 1 < s.layout.NumPieces() || LastCounted(s)
  {
    PieceCounted(s, i, added);
    MissingUpTo(s, i);
    CountedIs(s, i);
  }

  /**
   * The bytes left, piece by piece over the incomplete ones, are the bytes still to be fetched, if and
   * only if the last piece is counted right.
   */
  method BytesLeft(s: Store) returns (left: int)
    requires Fits(s.layout) && DirtyOk(s.layout, s.dirty) && IsBitmap(s.dirty)
    ensures left == Missing(s, 0, s.layout.total) <==> LastCounted(s)
  {
    var l := s.layout;
    left := 0;
    var i, n := 0, l.NumPieces();
    CeilAbove(l.total, l.pieceLen, 0);
    CeilAbove(l.total, l.pieceLen, n);
    while i < n
      invariant 0 <= i <= n
      invariant left == Missing(s, 0, Min(i * l.pieceLen, l.total)) <==> i < n || LastCounted(s)
    {
      ghost var before := left;
      if i !in s.complete {
        left := left + LeftOf(l, s.dirty, i);
      }
      LeftStep(s, i, before, left - before);
      i := i + 1;
    }
  }

  lemma OverlookedLayout(l: Layout)
    requires l == Layout(0x4000_0000_0000, 0x300_0000, 0x4000)
    ensures Fits(l) && l.NumPieces() == 1398102 && l.PerPiece() == 3072 && Count(l) == TWO32
    ensures PieceIndexOffset(l, 1398101) == 0xffff_fc00 && PieceIndexOffset(l, 1398102) == 2048
  {
  }

  /**
   * 64 TiB in pieces of 48 MiB and chunks of 16 KiB: the first chunk of the last piece is dirty, but it is
   * not counted, and its bytes are not either.
   */
  lemma OverlookedExample()
    ensures var l, dirty := Layout(0x4000_0000_0000, 0x300_0000, 0x4000), {0xffff_fc00};
            && Fits(l) && DirtyOk(l, dirty) && l.NumPieces() == 1398102 && 1398101 * l.PerPiece() == 0xffff_fc00
            && NumDirtyChunks(l, dirty, 1398101) == 0 && Chunks(l, 1398101) >= 0
            && NumDirtyBytes(l, dirty, 1398101) != ChunkBytes(l, dirty, 1398101, Chunks(l, 1398101), true)
  {
    var l, dirty: set<nat> := Layout(0x4000_0000_0000, 0x300_0000, 0x4000), {0xffff_fc00};
    OverlookedLayout(l);
    LoneBit(0xffff_fc00, 2048);
    assert Between(dirty, 2048, TWO32) == dirty;
    OverlookedOne(l, dirty);
    DirtyBytesRightIff(l, dirty, 1398101);
  }

  lemma LoneBit(x: nat, end: nat)
    requires 0 < end <= x < TWO32
    ensures RangeCardinality({x}, x, end) == 0
  {
    var bm: set<nat> := {x};
    RankIs(bm, end - 1);
    RankIs(bm, x - 1);
    assert Between(bm, 0, end) == Between(bm, 0, x) == {};
  }

  lemma OverlookedOne(l: Layout, dirty: set<nat>)
    requires SizesFit(l) && l.PerPiece() == 3072 && |Between(dirty, 2048, TWO32)| == 1
    ensures Overlooked(l, dirty, 1398101) == 1
  {
  }
}
