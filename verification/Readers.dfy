/** How much a reader can read now, and which pieces it wants. */
module Readers {
  import opened Common
  import opened Division
  import opened ChunkGeometry

  /** What the torrent has: complete pieces, and chunks by request index. */
  datatype Store = Store(layout: Layout, complete: set<int>, dirty: set<nat>, responsive: bool)

  predicate HaveChunk(s: Store, r: Request)
    requires s.layout.chunk > 0
  {
    r.index in s.complete || FromRequest(s.layout, r) in s.dirty
  }

  predicate Readable(s: Store, r: Request)
    requires s.layout.chunk > 0
  {
    (s.responsive || r.index in s.complete) && HaveChunk(s, r)
  }

  /** A byte can be read when it is there and the chunk around it can. */
  predicate ByteReadable(s: Store, off: int)
    requires s.layout.pieceLen > 0 && s.layout.chunk > 0
  {
    OffsetRequest(s.layout, off).Some? && Readable(s, OffsetRequest(s.layout, off).value)
  }

  /** The request for a byte of a chunk is the request for the chunk. */
  lemma RequestOfByte(l: Layout, i: int, k: int, y: int)
    requires Addressable(l) && 0 <= i < l.NumPieces() && 0 <= k < Chunks(l, i)
    requires Start(l, Req(l, i, k)) <= y < End(l, Req(l, i, k))
    ensures OffsetRequest(l, y) == Some(Req(l, i, k))
  {
    StaysInside(l, i, k);
    QuotientBelow(y, l.pieceLen, l.NumPieces());
    CeilAbove(l.total, l.pieceLen, l.NumPieces());
    var j, m := OffsetRequestIs(l, y);
    SameChunk(l, i, k, j, m, y);
  }

  /** All bytes of a request have that request. */
  lemma SameRequest(l: Layout, x: nat, y: int)
    requires Addressable(l) && x < l.total
    ensures OffsetRequest(l, x).Some?
    ensures var r := OffsetRequest(l, x).value;
            && Start(l, r) <= x < End(l, r)
            && (Start(l, r) <= y < End(l, r) ==> OffsetRequest(l, y) == Some(r))
  {
    QuotientBelow(x, l.pieceLen, l.NumPieces());
    CeilAbove(l.total, l.pieceLen, l.NumPieces());
    var i, k := OffsetRequestIs(l, x);
    var r := Req(l, i, k);
    if Start(l, r) <= y < End(l, r) {
      RequestOfByte(l, i, k, y);
    }
  }

  /** A byte of a chunk can be read if its piece is complete, or if the chunk is there and that is enough. */
  lemma ReadableIff(s: Store, ri: nat, i: int, k: int, off: int)
    requires Addressable(s.layout) && Names(s.layout, ri, i, k) && ri < TWO32
    requires Start(s.layout, Req(s.layout, i, k)) <= off < End(s.layout, Req(s.layout, i, k))
    ensures ByteReadable(s, off) <==> i in s.complete || (s.responsive && ri in s.dirty)
  {
    RequestOfByte(s.layout, i, k, off);
    FromRequestIs(s.layout, ri, i, k);
    Unwrapped(i);
  }

  /** Nothing can be read outside of the data. */
  lemma UnreadableOutside(s: Store, off: int)
    requires Addressable(s.layout) && !(0 <= off < s.layout.total)
    ensures !ByteReadable(s, off)
  {
  }

  lemma SameChunk(l: Layout, i: int, k: int, j: int, m: int, y: int)
    requires SizesFit(l)
    requires 0 <= i < l.NumPieces() && 0 <= k < Chunks(l, i) && 0 <= j < l.NumPieces() && 0 <= m < Chunks(l, j)
    requires Start(l, Req(l, i, k)) <= y < End(l, Req(l, i, k))
    requires Start(l, Req(l, j, m)) <= y < End(l, Req(l, j, m))
    ensures Req(l, i, k) == Req(l, j, m)
  {
    var ri := Index(l, i, k);
    var rj := Index(l, j, m);
    ToRequestIs(l, ri, i, k);
    ToRequestIs(l, rj, j, m);
    ContainingUnique(l, ri, rj, y);
  }

  lemma Index(l: Layout, i: int, k: int) returns (ri: nat)
    requires SizesFit(l) && 0 <= i < l.NumPieces() && 0 <= k < Chunks(l, i)
    ensures Names(l, ri, i, k) && ri < Count(l)
  {
    ChunkInside(l, i, k);
    Times(0, i, l.PerPiece());
    ri := i * l.PerPiece() + k;
    NamedIsBelow(l, ri, i, k);
  }

  /**
   * How many bytes can be read from `from`, at most `max`: as many as can be read without a gap.
   * With a negative `max` the answer is that number.
   */
  method Available(s: Store, from: int, max: int) returns (ret: int)
    requires Addressable(s.layout)
    ensures max < 0 ==> ret == max
    ensures max >= 0 ==> 0 <= ret <= max
    ensures forall x | from <= x < from + ret :: ByteReadable(s, x)
    ensures 0 <= ret < max ==> !ByteReadable(s, from + ret)
  {
    var l := s.layout;
    var off, left := from, max;
    ret := 0;
    while left > 0
      invariant ret >= 0 && off == from + ret && left == max - ret
      invariant left < max ==> max > 0
      invariant forall x | from <= x < off :: ByteReadable(s, x)
      decreases l.total - off
    {
      var req := OffsetRequest(l, off);
      if req.None? || !Readable(s, req.value) {
        break;
      }
      var start := RequestOffset(l, req.value);
      SameRequest(l, off, off);
      assert start.Done?;
      var len1 := req.value.length - (off - start.value);
      forall x | off <= x < off + len1
        ensures ByteReadable(s, x)
      {
        SameRequest(l, off, x);
      }
      left, ret, off := left - len1, ret + len1, off + len1;
    }
    if left < 0 {
      ret := ret + left;
    }
  }

  // -------------------------------------------------------------- wanted pieces

  /** The pieces that a region of the data falls on. */
  function ByteRegionPieces(l: Layout, off: int, size: int): (int, int)
    requires l.pieceLen > 0
  {
    if off >= l.total then (0, 0)
    else
      var size1 := if off < 0 then size + off else size;
      var off1 := if off < 0 then 0 else off;
      if size1 <= 0 then (0, 0)
      else
        var end := CeilDiv(off1 + size1, l.pieceLen);
        (off1 / l.pieceLen, if end > l.NumPieces() then l.NumPieces() else end)
  }

  /** Byte `x` of the data lies in the region and in the piece. */
  predicate Meets(l: Layout, off: int, size: int, i: int, x: int) {
    off <= x < off + size && i * l.pieceLen <= x < (i + 1) * l.pieceLen && 0 <= x < l.total
  }

  /** Some byte does. */
  ghost predicate Touches(l: Layout, off: int, size: int, i: int) {
    exists x :: Meets(l, off, size, i, x)
  }

  lemma MeetsIff(l: Layout, off: int, size: int, i: int)
    ensures Touches(l, off, size, i) <==>
            var lo, hi := Max(off, 0), Min(off + size, l.total);
            lo < hi && lo < (i + 1) * l.pieceLen && i * l.pieceLen < hi && l.pieceLen > 0
  {
    var lo, hi := Max(off, 0), Min(off + size, l.total);
    assert (i + 1) * l.pieceLen == i * l.pieceLen + l.pieceLen;
    if lo < hi && lo < (i + 1) * l.pieceLen && i * l.pieceLen < hi && l.pieceLen > 0 {
      assert Meets(l, off, size, i, Max(lo, i * l.pieceLen));
    }
  }

  lemma RegionIff(l: Layout, lo: int, past: int, i: int, begin: int, end: int)
    requires l.pieceLen > 0 && begin == lo / l.pieceLen
    requires end == Min(CeilDiv(past, l.pieceLen), l.NumPieces())
    ensures begin <= i < end <==> lo < (i + 1) * l.pieceLen && i * l.pieceLen < Min(past, l.total)
  {
    QuotientBelow(lo, l.pieceLen, i + 1);
    CeilAbove(past, l.pieceLen, i);
    CeilAbove(l.total, l.pieceLen, i);
  }

  /** Exactly the pieces that have a byte in the region. */
  lemma RegionExact(l: Layout, off: int, size: int, i: int)
    requires l.pieceLen > 0
    ensures var (begin, end) := ByteRegionPieces(l, off, size);
            && 0 <= begin <= end <= l.NumPieces()
            && (begin <= i < end <==> Touches(l, off, size, i))
  {
    var (begin, end) := ByteRegionPieces(l, off, size);
    CeilAbove(l.total, l.pieceLen, 0);
    MeetsIff(l, off, size, i);
    var lo := Max(off, 0);
    if lo < Min(off + size, l.total) {
      RegionBounds(l, lo, off + size, begin, end);
      RegionIff(l, lo, off + size, i, begin, end);
    }
  }

  lemma RegionBounds(l: Layout, lo: int, past: int, begin: int, end: int)
    requires l.pieceLen > 0 && 0 <= lo < past && lo < l.total
    requires begin == lo / l.pieceLen && end == Min(CeilDiv(past, l.pieceLen), l.NumPieces())
    ensures 0 <= begin < end <= l.NumPieces()
  {
    QuotientBelow(lo, l.pieceLen, 0);
    Quotient(lo, l.pieceLen);
    CeilAbove(past, l.pieceLen, begin);
    CeilAbove(l.total, l.pieceLen, begin);
  }

  /** The pieces a reader wants: at least its position while it reads, and none otherwise. */
  function PiecesUncached(l: Layout, offset: int, length: int, pos: int, reading: bool, readahead: int): (int, int)
    requires l.pieceLen > 0
  {
    var ra := if !reading then 0 else if readahead < 1 then 1 else readahead;
    ByteRegionPieces(l, offset + pos, Min(ra, length - pos))
  }

  lemma ReaderWants(l: Layout, offset: nat, length: nat, pos: nat, reading: bool, readahead: int)
    requires l.pieceLen > 0 && offset + length <= l.total && pos < length
    ensures var (begin, end) := PiecesUncached(l, offset, length, pos, reading, readahead);
            && 0 <= begin <= end <= l.NumPieces()
            && (reading ==> begin == (offset + pos) / l.pieceLen < end)
            && (!reading ==> begin == end)
  {
    var (begin, end) := PiecesUncached(l, offset, length, pos, reading, readahead);
    CeilAbove(l.total, l.pieceLen, 0);
    if reading {
      var ra := Min(if readahead < 1 then 1 else readahead, length - pos);
      RegionBounds(l, offset + pos, offset + pos + ra, begin, end);
    }
  }

  /**
   * While it reads, the reader wants exactly the pieces with a byte from its position up to the end of its
   * readahead, at least one byte, and within its window.
   */
  lemma ReaderWantsExactly(l: Layout, offset: int, length: int, pos: int, readahead: int, i: int)
    requires l.pieceLen > 0
    ensures var (begin, end) := PiecesUncached(l, offset, length, pos, true, readahead);
            begin <= i < end <==> Touches(l, offset + pos, Min(Max(readahead, 1), length - pos), i)
  {
    RegionExact(l, offset + pos, Min(Max(readahead, 1), length - pos), i);
  }
}
