/** Where requests lie in the data of a torrent.  Lengths and indices are 32-bit numbers that wrap around. */
module ChunkGeometry {
  import opened Common
  import opened Division

  const TWO32: int := 0x1_0000_0000

  function U32(x: int): int {
    x % TWO32
  }

  datatype Layout = Layout(total: nat, pieceLen: nat, chunk: nat) {
    function NumPieces(): int
      requires pieceLen > 0
    {
      CeilDiv(total, pieceLen)
    }

    function PerPiece(): int
      requires chunk > 0
    {
      CeilDiv(pieceLen, chunk)
    }
  }

  datatype Request = Request(index: int, begin: int, length: int)

  // --------------------------------------------------------- as the program does it

  function PieceLength(l: Layout, i: int): int
    requires l.pieceLen > 0
  {
    if i == l.NumPieces() - 1 && U32(l.total % l.pieceLen) != 0 then U32(l.total % l.pieceLen) else U32(l.pieceLen)
  }

  function PieceNumChunks(l: Layout, i: int): int
    requires l.pieceLen > 0 && l.chunk > 0
  {
    U32(PieceLength(l, i) + l.chunk - 1) / l.chunk
  }

  function ChunksPerRegularPiece(l: Layout): int
    requires l.chunk > 0
  {
    U32(U32(l.pieceLen) + l.chunk - 1) / l.chunk
  }

  function NumChunks(l: Layout): int
    requires l.pieceLen > 0 && l.chunk > 0
  {
    if l.NumPieces() == 0 then 0
    else U32(U32(U32(l.NumPieces() - 1) * ChunksPerRegularPiece(l)) + PieceNumChunks(l, l.NumPieces() - 1))
  }

  function ChunkIndexSpec(index: int, pieceLength: int, chunk: int): (int, int) {
    var begin := U32(index * chunk);
    if U32(begin + chunk) > pieceLength then (begin, U32(pieceLength - begin)) else (begin, chunk)
  }

  function ToRequest(l: Layout, ri: int): Request
    requires l.pieceLen > 0 && l.chunk > 0 && ChunksPerRegularPiece(l) > 0
  {
    var index := ri / ChunksPerRegularPiece(l);
    var (begin, length) := ChunkIndexSpec(ri % ChunksPerRegularPiece(l), PieceLength(l, index), l.chunk);
    Request(index, begin, length)
  }

  function FromRequest(l: Layout, r: Request): int
    requires l.chunk > 0
  {
    U32(U32(U32(r.index) * ChunksPerRegularPiece(l)) + r.begin / l.chunk)
  }

  function OffsetRequest(l: Layout, off: int): Option<Request>
    requires l.pieceLen > 0 && l.chunk > 0
  {
    if off < 0 || off >= l.total then None
    else
      var index := U32(off / l.pieceLen);
      var begin := U32(off % l.pieceLen / l.chunk * l.chunk);
      Some(Request(index, begin, ClippedLength(l, index, begin)))
  }

  /** The chunk size, cut off at the end of the piece and at the end of the data. */
  function ClippedLength(l: Layout, index: int, begin: int): int {
    var pieceLeft := U32(l.pieceLen - begin);
    var length := if U32(l.chunk) > pieceLeft then pieceLeft else U32(l.chunk);
    var torrentLeft := l.total - index * l.pieceLen - begin;
    if length > torrentLeft then U32(torrentLeft) else length
  }

  function RequestOffset(l: Layout, r: Request): Outcome<int> {
    var off := r.index * l.pieceLen + r.begin;
    if off < 0 || off >= l.total then Panic("invalid Request") else Done(off)
  }

  // -------------------------------------------------------------- what fits

  predicate SizesFit(l: Layout) {
    l.pieceLen > 0 && l.chunk > 0 && l.pieceLen + l.chunk - 1 < TWO32
  }

  /** Every piece has a 32-bit number. */
  predicate Addressable(l: Layout) {
    SizesFit(l) && l.NumPieces() <= TWO32
  }

  /** The length of a piece, without wrapping. */
  function Length(l: Layout, i: int): int
    requires l.pieceLen > 0
  {
    Min(l.pieceLen, l.total - i * l.pieceLen)
  }

  function Chunks(l: Layout, i: int): int
    requires l.pieceLen > 0 && l.chunk > 0
  {
    CeilDiv(Length(l, i), l.chunk)
  }

  /** How many chunks there are, without wrapping: the last piece may have fewer. */
  function Count(l: Layout): int
    requires l.pieceLen > 0 && l.chunk > 0
  {
    if l.NumPieces() == 0 then 0 else (l.NumPieces() - 1) * l.PerPiece() + Chunks(l, l.NumPieces() - 1)
  }

  /** Every chunk has an index of its own. */
  predicate Fits(l: Layout) {
    SizesFit(l) && Count(l) <= TWO32
  }

  /** The last piece gets what is left. */
  lemma LengthIs(l: Layout, i: int)
    requires l.pieceLen > 0 && 0 <= i < l.NumPieces()
    ensures 0 < Length(l, i) <= l.pieceLen
    ensures Length(l, i) == if i == l.NumPieces() - 1 && l.total % l.pieceLen != 0 then l.total % l.pieceLen else l.pieceLen
    ensures i < l.NumPieces() - 1 ==> Length(l, i) == l.pieceLen
    ensures i == l.NumPieces() - 1 ==> i * l.pieceLen + Length(l, i) == l.total
  {
    var n := l.NumPieces();
    CeilAbove(l.total, l.pieceLen, i);
    CeilAbove(l.total, l.pieceLen, i + 1);
    assert (i + 1) * l.pieceLen == i * l.pieceLen + l.pieceLen;
    if i == n - 1 {
      var left := l.total - i * l.pieceLen;
      assert 0 < left <= l.pieceLen;
      if left < l.pieceLen {
        QuotientIs(l.total, l.pieceLen, i);
      } else {
        QuotientIs(l.total, l.pieceLen, i + 1);
      }
    }
  }

  lemma PieceLengthIs(l: Layout, i: int)
    requires SizesFit(l) && 0 <= i < l.NumPieces()
    ensures PieceLength(l, i) == Length(l, i)
  {
    LengthIs(l, i);
  }

  /**
   * The number of chunks is computed right if and only if the sum of the piece length and the chunk
   * size, less one, does not wrap around.
   */
  lemma NumChunksRightIff(pieceLength: nat, chunk: nat)
    requires 0 < chunk < TWO32
    ensures U32(pieceLength + chunk - 1) / chunk == CeilDiv(pieceLength, chunk) <==> pieceLength + chunk - 1 < TWO32
  {
    var x := pieceLength + chunk - 1;
    if x >= TWO32 {
      WrapLess(x);
      SmallerQuotient(U32(x), x, chunk);
    }
  }

  /** One piece of almost four gigabytes, in chunks of 16 KiB: it comes out as having no chunks. */
  lemma NumChunksExample()
    ensures var l := Layout(0xffff_ffff, 0xffff_ffff, 0x4000);
            l.NumPieces() == 1 && PieceNumChunks(l, 0) == ChunksPerRegularPiece(l) == 0 && Chunks(l, 0) == 0x4_0000
  {
  }

  lemma Unwrapped(x: int)
    requires 0 <= x < TWO32
    ensures U32(x) == x
  {
  }

  lemma WrapLess(x: int)
    requires x >= TWO32
    ensures U32(x) <= x - TWO32
  {
    Times(1, x / TWO32, TWO32);
  }

  lemma SmallerQuotient(y: int, x: int, d: int)
    requires d > 0 && y + d <= x
    ensures y / d < x / d
  {
    Quotient(y, d);
    QuotientBelow(x, d, y / d + 1);
    assert (y / d + 1) * d == (y / d) * d + d;
  }

  lemma PerPieceIs(l: Layout)
    requires SizesFit(l)
    ensures ChunksPerRegularPiece(l) == l.PerPiece() > 0
  {
    Unwrapped(l.pieceLen);
    NumChunksRightIff(l.pieceLen, l.chunk);
    CeilAbove(l.pieceLen, l.chunk, 0);
  }

  /**
   * For sizes of 32 bits there are chunks per regular piece, which the conversions divide by, if and only
   * if the sizes fit.
   */
  lemma ConvertibleIff(l: Layout)
    requires 0 < l.pieceLen < TWO32 && 0 < l.chunk < TWO32
    ensures ChunksPerRegularPiece(l) > 0 <==> SizesFit(l)
  {
    Unwrapped(l.pieceLen);
    if SizesFit(l) {
      PerPieceIs(l);
    } else {
      WrappedQuotient(l.pieceLen + l.chunk - 1, l.chunk);
    }
  }

  lemma WrappedQuotient(x: int, d: int)
    requires 0 < d < TWO32 <= x < TWO32 + d
    ensures U32(x) / d == 0
  {
    QuotientIs(x, TWO32, 1);
    QuotientIs(x - TWO32, d, 0);
  }

  lemma PieceNumChunksIs(l: Layout, i: int)
    requires SizesFit(l) && 0 <= i < l.NumPieces()
    ensures PieceNumChunks(l, i) == Chunks(l, i)
  {
    LengthIs(l, i);
    PieceLengthIs(l, i);
    NumChunksRightIff(Length(l, i), l.chunk);
  }

  lemma ChunksAre(l: Layout, i: int)
    requires SizesFit(l) && 0 <= i < l.NumPieces()
    ensures PieceNumChunks(l, i) == Chunks(l, i) > 0
    ensures Chunks(l, i) <= ChunksPerRegularPiece(l) == l.PerPiece()
    ensures i < l.NumPieces() - 1 ==> Chunks(l, i) == ChunksPerRegularPiece(l)
  {
    PerPieceIs(l);
    PieceNumChunksIs(l, i);
    LengthIs(l, i);
    CeilAbove(Length(l, i), l.chunk, 0);
    CeilGrows(Length(l, i), l.pieceLen, l.chunk);
  }

  // ------------------------------------------- requests partition the data

  /** A request index names a chunk of a piece. */
  ghost predicate Names(l: Layout, ri: int, i: int, k: int)
    requires SizesFit(l)
  {
    0 <= i < l.NumPieces() && 0 <= k < Chunks(l, i) && ri == i * l.PerPiece() + k
  }

  /** The request for chunk `k` of piece `i`. */
  ghost function Req(l: Layout, i: int, k: int): Request
    requires l.pieceLen > 0
  {
    Request(i, k * l.chunk, Min(l.chunk, Length(l, i) - k * l.chunk))
  }

  lemma ChunkInside(l: Layout, i: int, k: int)
    requires SizesFit(l) && 0 <= i < l.NumPieces() && 0 <= k < Chunks(l, i)
    ensures 0 <= k * l.chunk < Length(l, i) <= l.pieceLen
    ensures Chunks(l, i) <= l.PerPiece()
  {
    LengthIs(l, i);
    ChunksAre(l, i);
    CeilAbove(Length(l, i), l.chunk, k);
    Times(0, k, l.chunk);
  }

  /** An index computed with wrapping is right when it fits. */
  lemma WrapIndex(i: int, per: int, k: int)
    requires 0 <= i && 0 < per && 0 <= k && i * per + k < TWO32
    ensures U32(U32(U32(i) * per) + k) == i * per + k
  {
    Times(0, i, per);
    Times(1, per, i);
    Unwrapped(i);
    Unwrapped(i * per);
    Unwrapped(i * per + k);
  }

  /** The number of chunks of the torrent is computed right if and only if it fits. */
  lemma NumChunksIs(l: Layout)
    requires SizesFit(l)
    ensures NumChunks(l) == Count(l) <==> Count(l) < TWO32
  {
    var n := l.NumPieces();
    CeilAbove(l.total, l.pieceLen, 0);
    if n > 0 && Count(l) < TWO32 {
      ChunksAre(l, n - 1);
      WrapIndex(n - 1, l.PerPiece(), Chunks(l, n - 1));
    }
  }

  lemma FewerPieces(n: int, per: int, last: int, bound: int)
    requires 0 < per && 0 < last && (n - 1) * per + last <= bound && 0 <= bound
    ensures n <= bound
  {
    if n > 0 {
      Times(1, per, n - 1);
    }
  }

  lemma FitsAddressable(l: Layout)
    requires Fits(l)
    ensures Addressable(l)
  {
    var n := l.NumPieces();
    CeilAbove(l.total, l.pieceLen, 0);
    if n > 0 {
      ChunksAre(l, n - 1);
      FewerPieces(n, l.PerPiece(), Chunks(l, n - 1), TWO32);
    }
  }

  lemma IndexOrder(n: int, per: int, last: int, i: int, k: int)
    requires 0 <= k < per && 0 < last <= per
    ensures i * per + k < (n - 1) * per + last <==> i < n - 1 || (i == n - 1 && k < last)
  {
    if i < n - 1 {
      Times(i + 1, n - 1, per);
      assert (i + 1) * per == i * per + per;
    } else if i >= n {
      Times(n, i, per);
      assert n * per == (n - 1) * per + per;
    }
  }

  /** The indices below the number of chunks are the ones that name a chunk. */
  lemma IndexNames(l: Layout, ri: int, i: int, k: int)
    requires SizesFit(l) && 0 <= i && 0 <= k < l.PerPiece() && ri == i * l.PerPiece() + k
    ensures ri < Count(l) <==> Names(l, ri, i, k)
  {
    var n := l.NumPieces();
    CeilAbove(l.total, l.pieceLen, 0);
    if n <= 0 {
      Times(0, i, l.PerPiece());
    } else {
      ChunksAre(l, n - 1);
      IndexOrder(n, l.PerPiece(), Chunks(l, n - 1), i, k);
      if i < n - 1 {
        ChunksAre(l, i);
      }
    }
  }

  /** Every index below the number of chunks names a chunk. */
  lemma Named(l: Layout, ri: nat) returns (i: int, k: int)
    requires SizesFit(l) && ri < Count(l)
    ensures Names(l, ri, i, k)
  {
    CeilAbove(l.pieceLen, l.chunk, 0);
    i, k := Split(ri, l.PerPiece());
    IndexNames(l, ri, i, k);
  }

  lemma Split(x: nat, d: int) returns (q: int, r: int)
    requires d > 0
    ensures 0 <= q && 0 <= r < d && x == q * d + r && q == x / d && r == x % d
  {
    q, r := x / d, x % d;
    Quotient(x, d);
    QuotientBelow(x, d, 0);
  }

  lemma Divides(q: int, d: int, r: int)
    requires d > 0 && 0 <= r < d
    ensures (q * d + r) / d == q && (q * d + r) % d == r
  {
    assert (q + 1) * d == q * d + d;
    QuotientIs(q * d + r, d, q);
  }

  lemma SpecIs(k: int, length: int, chunk: int)
    requires 0 <= k * chunk < length && 0 < chunk && length + chunk - 1 < TWO32
    ensures ChunkIndexSpec(k, length, chunk) == (k * chunk, Min(chunk, length - k * chunk))
  {
    Unwrapped(k * chunk);
    Unwrapped(k * chunk + chunk);
    Unwrapped(length - k * chunk);
  }

  /** The program's request for an index is the request for the chunk it names. */
  lemma ToRequestIs(l: Layout, ri: int, i: int, k: int)
    requires SizesFit(l) && Names(l, ri, i, k)
    ensures ChunksPerRegularPiece(l) > 0 && ToRequest(l, ri) == Req(l, i, k)
  {
    ChunkInside(l, i, k);
    ChunksAre(l, i);
    PieceLengthIs(l, i);
    Divides(i, l.PerPiece(), k);
    SpecIs(k, Length(l, i), l.chunk);
  }

  lemma FromRequestIs(l: Layout, ri: int, i: int, k: int)
    requires SizesFit(l) && Names(l, ri, i, k) && ri < TWO32
    ensures FromRequest(l, Req(l, i, k)) == ri
  {
    ChunkInside(l, i, k);
    ChunksAre(l, i);
    Divides(k, l.chunk, 0);
    WrapIndex(i, l.PerPiece(), k);
  }

  /** The two conversions undo each other, on every index that is a 32-bit number. */
  lemma IndexRoundTrip(l: Layout, ri: nat)
    requires SizesFit(l) && ri < Count(l)
    ensures ChunksPerRegularPiece(l) > 0 && (FromRequest(l, ToRequest(l, ri)) == ri <==> ri < TWO32)
  {
    var i, k := Named(l, ri);
    ToRequestIs(l, ri, i, k);
    if ri < TWO32 {
      FromRequestIs(l, ri, i, k);
    }
  }

  /** ... and on all requests for a chunk, when there are not too many. */
  lemma RequestRoundTrip(l: Layout, i: int, k: int)
    requires Fits(l) && 0 <= i < l.NumPieces() && 0 <= k < Chunks(l, i)
    ensures ChunksPerRegularPiece(l) > 0 && FromRequest(l, Req(l, i, k)) < Count(l)
    ensures ToRequest(l, FromRequest(l, Req(l, i, k))) == Req(l, i, k)
  {
    var ri := i * l.PerPiece() + k;
    ChunkInside(l, i, k);
    IndexNames(l, ri, i, k);
    FromRequestIs(l, ri, i, k);
    ToRequestIs(l, ri, i, k);
  }

  /** Every request for a chunk survives the conversion to an index and back. */
  ghost predicate RoundTrips(l: Layout)
    requires SizesFit(l) && ChunksPerRegularPiece(l) > 0
  {
    forall i, k | 0 <= i < l.NumPieces() && 0 <= k < Chunks(l, i) ::
      ToRequest(l, FromRequest(l, Req(l, i, k))) == Req(l, i, k)
  }

  lemma WrapsToZero(i: int, per: int, k: int)
    requires 0 <= i && 0 < per && 0 <= k < per && i * per + k == TWO32
    ensures U32(U32(U32(i) * per) + k) == 0
  {
    Times(0, i, per);
    Times(1, per, i);
    if i < TWO32 {
      Unwrapped(i);
      if k > 0 {
        Unwrapped(i * per);
      }
    } else if per > 1 {
      Times(2, per, i);
    }
  }

  /** With more chunks than there are indices, the first chunk too many goes by the index zero. */
  lemma TooMany(l: Layout) returns (i: int, k: int)
    requires SizesFit(l) && Count(l) > TWO32
    ensures 0 <= i < l.NumPieces() && 0 <= k < Chunks(l, i) && (i, k) != (0, 0)
    ensures FromRequest(l, Req(l, i, k)) == 0
  {
    i, k := Named(l, TWO32);
    ChunkInside(l, i, k);
    ChunksAre(l, i);
    Divides(k, l.chunk, 0);
    WrapsToZero(i, l.PerPiece(), k);
  }

  lemma ReqInjective(l: Layout, i: int, k: int)
    requires SizesFit(l) && 0 <= k && Req(l, i, k) == Req(l, 0, 0)
    ensures (i, k) == (0, 0)
  {
    if k > 0 {
      Times(1, k, l.chunk);
    }
  }

  /** The round trip works on all requests if and only if there are no more chunks than 32-bit numbers. */
  lemma RoundTripIff(l: Layout)
    requires SizesFit(l)
    ensures ChunksPerRegularPiece(l) > 0 && (RoundTrips(l) <==> Count(l) <= TWO32)
  {
    PerPieceIs(l);
    if Count(l) <= TWO32 {
      forall i, k | 0 <= i < l.NumPieces() && 0 <= k < Chunks(l, i)
        ensures ToRequest(l, FromRequest(l, Req(l, i, k))) == Req(l, i, k)
      {
        RequestRoundTrip(l, i, k);
      }
    } else {
      var i, k := TooMany(l);
      ChunksAre(l, 0);
      Times(0, 0, l.PerPiece());
      ToRequestIs(l, 0, 0, 0);
      if Req(l, i, k) == Req(l, 0, 0) {
        ReqInjective(l, i, k);
      }
    }
  }

  /** Where the data of a request starts. */
  function Start(l: Layout, r: Request): int {
    r.index * l.pieceLen + r.begin
  }

  function End(l: Layout, r: Request): int {
    Start(l, r) + r.length
  }

  lemma ReqEnd(l: Layout, i: int, k: int)
    requires l.pieceLen > 0
    ensures End(l, Req(l, i, k)) == i * l.pieceLen + Min((k + 1) * l.chunk, Length(l, i))
  {
    assert (k + 1) * l.chunk == k * l.chunk + l.chunk;
  }

  lemma NextInPiece(l: Layout, ri: int, i: int, k: int)
    requires SizesFit(l) && Names(l, ri, i, k) && k + 1 < Chunks(l, i)
    ensures Names(l, ri + 1, i, k + 1) && End(l, Req(l, i, k)) == Start(l, Req(l, i, k + 1))
  {
    ChunkInside(l, i, k + 1);
    ReqEnd(l, i, k);
  }

  lemma LastInPiece(l: Layout, i: int, k: int)
    requires SizesFit(l) && 0 <= i < l.NumPieces() && k + 1 == Chunks(l, i)
    ensures End(l, Req(l, i, k)) == i * l.pieceLen + Length(l, i)
  {
    ReqEnd(l, i, k);
    CeilAbove(Length(l, i), l.chunk, k + 1);
  }

  lemma NextPiece(l: Layout, ri: int, i: int, k: int)
    requires SizesFit(l) && Names(l, ri, i, k) && k + 1 == Chunks(l, i) && i + 1 < l.NumPieces()
    ensures Names(l, ri + 1, i + 1, 0) && End(l, Req(l, i, k)) == Start(l, Req(l, i + 1, 0))
  {
    ChunksAre(l, i);
    ChunksAre(l, i + 1);
    NextMultiple(i, l.PerPiece());
    NextPieceStart(l, i, k);
  }

  lemma NextPieceStart(l: Layout, i: int, k: int)
    requires SizesFit(l) && 0 <= i && i + 1 < l.NumPieces() && k + 1 == Chunks(l, i)
    ensures End(l, Req(l, i, k)) == Start(l, Req(l, i + 1, 0))
  {
    LastInPiece(l, i, k);
    LengthIs(l, i);
    NextMultiple(i, l.pieceLen);
  }

  lemma LastOfAll(l: Layout, ri: int, i: int, k: int)
    requires SizesFit(l) && Names(l, ri, i, k) && k + 1 == Chunks(l, i) && i + 1 == l.NumPieces()
    ensures ri + 1 == Count(l) && End(l, Req(l, i, k)) == l.total
  {
    LastInPiece(l, i, k);
    LengthIs(l, i);
  }

  lemma NamedIsBelow(l: Layout, ri: int, i: int, k: int)
    requires SizesFit(l) && Names(l, ri, i, k)
    ensures ri < Count(l)
  {
    ChunkInside(l, i, k);
    IndexNames(l, ri, i, k);
  }

  /** After the request of one index comes that of the next, or the end of the data. */
  lemma FollowedBy(l: Layout, ri: int, i: int, k: int)
    requires SizesFit(l) && Names(l, ri, i, k)
    ensures ChunksPerRegularPiece(l) > 0
    ensures End(l, Req(l, i, k)) == if ri + 1 < Count(l) then Start(l, ToRequest(l, ri + 1)) else l.total
  {
    if k + 1 < Chunks(l, i) {
      NextInPiece(l, ri, i, k);
      ToRequestIs(l, ri + 1, i, k + 1);
      NamedIsBelow(l, ri + 1, i, k + 1);
    } else if i + 1 < l.NumPieces() {
      NextPiece(l, ri, i, k);
      ToRequestIs(l, ri + 1, i + 1, 0);
      NamedIsBelow(l, ri + 1, i + 1, 0);
    } else {
      LastOfAll(l, ri, i, k);
      ChunksAre(l, i);
    }
  }

  lemma FirstIsZero(i: int, per: int, k: int)
    requires 0 <= i && 0 <= k < per && i * per + k == 0
    ensures i == 0 && k == 0
  {
    if i >= 1 {
      Times(1, i, per);
    }
  }

  /** Request `ri` of `n` is not empty and reaches to the next, or to the end of the data. */
  ghost predicate InPlace(l: Layout, ri: nat, n: int)
    requires SizesFit(l) && ChunksPerRegularPiece(l) > 0
  {
    && ToRequest(l, ri).length > 0 && (ri == 0 ==> Start(l, ToRequest(l, ri)) == 0)
    && End(l, ToRequest(l, ri)) == if ri + 1 < n then Start(l, ToRequest(l, ri + 1)) else l.total
  }

  /** The requests lie one after the other, from the start to the end of the data, none of them empty. */
  lemma RequestsPartition(l: Layout, ri: nat)
    requires SizesFit(l) && ri < Count(l)
    ensures ChunksPerRegularPiece(l) > 0 && InPlace(l, ri, Count(l))
  {
    var i, k := Named(l, ri);
    ToRequestIs(l, ri, i, k);
    FollowedBy(l, ri, i, k);
    ChunkInside(l, i, k);
    if ri == 0 {
      FirstIsZero(i, l.PerPiece(), k);
    }
  }

  /** The requests up to the number of chunks, as the program computes it, cover the data. */
  ghost predicate Partitioned(l: Layout)
    requires SizesFit(l) && ChunksPerRegularPiece(l) > 0
  {
    (NumChunks(l) == 0 ==> l.total == 0) && forall ri: nat | ri < NumChunks(l) :: InPlace(l, ri, NumChunks(l))
  }

  /** They do if and only if the number of chunks fits. */
  lemma PartitionIff(l: Layout)
    requires SizesFit(l)
    ensures ChunksPerRegularPiece(l) > 0 && (Partitioned(l) <==> Count(l) < TWO32)
  {
    PerPieceIs(l);
    NumChunksIs(l);
    if Count(l) < TWO32 {
      AllInPlace(l, NumChunks(l));
    } else {
      NotAllInPlace(l, NumChunks(l));
    }
  }

  lemma AllInPlace(l: Layout, n: int)
    requires SizesFit(l) && n == Count(l)
    ensures ChunksPerRegularPiece(l) > 0 && (n == 0 ==> l.total == 0) && forall ri: nat | ri < n :: InPlace(l, ri, n)
  {
    PerPieceIs(l);
    if n == 0 {
      NoneIfEmpty(l);
    }
    forall ri: nat | ri < n
      ensures InPlace(l, ri, n)
    {
      RequestsPartition(l, ri);
    }
  }

  lemma NotAllInPlace(l: Layout, n: int)
    requires SizesFit(l) && 0 <= n < Count(l)
    ensures ChunksPerRegularPiece(l) > 0
    ensures (n == 0 && l.total > 0) || exists ri: nat :: ri < n && !InPlace(l, ri, n)
  {
    PerPieceIs(l);
    if n == 0 {
      CeilAbove(l.total, l.pieceLen, 0);
    } else {
      StopsShort(l, n);
      assert !InPlace(l, n - 1, n);
    }
  }

  lemma NoneIfEmpty(l: Layout)
    requires SizesFit(l) && Count(l) == 0
    ensures l.total == 0
  {
    CeilAbove(l.total, l.pieceLen, 0);
    if l.NumPieces() > 0 {
      ChunksAre(l, l.NumPieces() - 1);
      Times(0, l.NumPieces() - 1, l.PerPiece());
    }
  }

  /** Fewer requests than there are chunks do not reach the end of the data. */
  lemma StopsShort(l: Layout, n: int)
    requires SizesFit(l) && 0 < n < Count(l)
    ensures ChunksPerRegularPiece(l) > 0 && !InPlace(l, n - 1, n)
  {
    RequestsPartition(l, n - 1);
    RequestsPartition(l, n);
    var i, k := Named(l, n);
    ToRequestIs(l, n, i, k);
    StaysInside(l, i, k);
  }

  lemma StaysInside(l: Layout, i: int, k: int)
    requires SizesFit(l) && 0 <= i < l.NumPieces() && 0 <= k < Chunks(l, i)
    ensures 0 <= Start(l, Req(l, i, k)) < End(l, Req(l, i, k)) <= l.total
  {
    ChunkInside(l, i, k);
    Times(0, i, l.pieceLen);
    ReqEnd(l, i, k);
  }

  lemma WrappedSizes(l: Layout)
    requires l == Layout(0x4000_0000_0001, 0x100_0000, 0x4000)
    ensures SizesFit(l) && l.NumPieces() == 0x40_0001 && l.PerPiece() == ChunksPerRegularPiece(l) == 1024
    ensures PieceLength(l, 0) == 0x100_0000 && PieceNumChunks(l, 0x40_0000) == Chunks(l, 0x40_0000) == 1
  {
  }

  lemma WrappedConversions(l: Layout)
    requires l == Layout(0x4000_0000_0001, 0x100_0000, 0x4000) && ChunksPerRegularPiece(l) == 1024
    ensures FromRequest(l, Request(0x40_0000, 0, 1)) == 0 && ToRequest(l, 0) == Request(0, 0, 0x4000)
  {
  }

  /**
   * A torrent of 64 TiB and one byte, in pieces of 16 MiB and chunks of 16 KiB: the last chunk
   * goes by the index of the first, and the number of chunks comes out as one.
   */
  lemma WrappedLayout(l: Layout)
    requires l == Layout(0x4000_0000_0001, 0x100_0000, 0x4000)
    ensures SizesFit(l) && Count(l) == TWO32 + 1 && NumChunks(l) == 1
    ensures Req(l, 0x40_0000, 0) == Request(0x40_0000, 0, 1) && FromRequest(l, Request(0x40_0000, 0, 1)) == 0
    ensures ChunksPerRegularPiece(l) > 0 && ToRequest(l, 0) == Request(0, 0, 0x4000)
  {
    WrappedSizes(l);
    WrappedConversions(l);
  }

  // ------------------------------------------------------ from offsets to requests

  /** The request for an offset is that of the chunk that contains it; there is one for every offset in the data. */
  lemma OffsetRequestIs(l: Layout, off: nat) returns (i: int, k: int)
    requires SizesFit(l) && off < l.total && off / l.pieceLen < TWO32
    ensures 0 <= i < l.NumPieces() && 0 <= k < Chunks(l, i)
    ensures OffsetRequest(l, off) == Some(Req(l, i, k))
    ensures Start(l, Req(l, i, k)) <= off < End(l, Req(l, i, k))
  {
    var rem, low;
    i, rem := Split(off, l.pieceLen);
    k, low := Split(rem, l.chunk);
    OffsetInside(l, off, i, rem, k, low);
    Unwrapped(i);
    Unwrapped(k * l.chunk);
    OffsetGives(l, off, i, k * l.chunk);
    ClippedLengthIs(l, i, k * l.chunk);
    ReqEnd(l, i, k);
  }

  /** The request for an offset contains it if and only if the number of its piece fits. */
  lemma OffsetRequestRightIff(l: Layout, off: nat)
    requires SizesFit(l) && off < l.total
    ensures OffsetRequest(l, off).Some?
    ensures var r := OffsetRequest(l, off).value;
            Start(l, r) <= off < End(l, r) <==> off / l.pieceLen < TWO32
  {
    if off / l.pieceLen < TWO32 {
      var i, k := OffsetRequestIs(l, off);
    } else {
      var i, rem := Split(off, l.pieceLen);
      EndsEarlier(l, off, i);
    }
  }

  /** The number of the piece wraps to that of an earlier piece. */
  lemma EndsEarlier(l: Layout, off: int, i: int)
    requires SizesFit(l) && 0 <= off < l.total && i == off / l.pieceLen >= TWO32 && i * l.pieceLen <= off
    ensures OffsetRequest(l, off).Some? && End(l, OffsetRequest(l, off).value) <= off
  {
    var j, begin := U32(i), U32(off % l.pieceLen / l.chunk * l.chunk);
    OffsetGives(l, off, j, begin);
    BeginInside(off % l.pieceLen, l.chunk);
    WrapLess(i);
    ClippedEnd(l, off, j, i, begin);
  }

  lemma ClippedEnd(l: Layout, off: int, j: int, i: int, begin: int)
    requires SizesFit(l) && j < i && i * l.pieceLen <= off < l.total && 0 <= begin < l.pieceLen
    ensures End(l, Request(j, begin, ClippedLength(l, j, begin))) <= off
  {
    EarlierEnd(j, i, l.pieceLen);
    ClippedFits(l, j, begin);
  }

  lemma BeginInside(rem: int, d: int)
    requires 0 <= rem < TWO32 && d > 0
    ensures 0 <= U32(rem / d * d) <= rem
  {
    Quotient(rem, d);
    QuotientBelow(rem, d, 0);
    Times(0, rem / d, d);
  }

  lemma ClippedFits(l: Layout, index: int, begin: int)
    requires SizesFit(l) && 0 <= begin < l.pieceLen && index * l.pieceLen + begin < l.total
    ensures ClippedLength(l, index, begin) <= l.pieceLen - begin
  {
  }

  lemma EarlierEnd(j: int, i: int, d: int)
    requires j < i && d >= 0
    ensures j * d + d <= i * d
  {
    Times(j + 1, i, d);
    assert (j + 1) * d == j * d + d;
  }

  lemma OffsetGives(l: Layout, off: int, i: int, begin: int)
    requires l.pieceLen > 0 && l.chunk > 0 && 0 <= off < l.total
    requires i == U32(off / l.pieceLen) && begin == U32(off % l.pieceLen / l.chunk * l.chunk)
    ensures OffsetRequest(l, off) == Some(Request(i, begin, ClippedLength(l, i, begin)))
  {
  }

  lemma ClippedLengthIs(l: Layout, i: int, begin: int)
    requires SizesFit(l) && 0 <= begin < Length(l, i)
    ensures ClippedLength(l, i, begin) == Min(l.chunk, Length(l, i) - begin)
  {
  }

  lemma OffsetInside(l: Layout, off: int, i: int, rem: int, k: int, low: int)
    requires SizesFit(l) && 0 <= off < l.total
    requires 0 <= i && 0 <= rem < l.pieceLen && off == i * l.pieceLen + rem
    requires 0 <= k && 0 <= low < l.chunk && rem == k * l.chunk + low
    ensures i < l.NumPieces() && rem < Length(l, i) && k < Chunks(l, i)
    ensures 0 <= k * l.chunk <= rem < (k + 1) * l.chunk
  {
    CeilAbove(l.total, l.pieceLen, i);
    LengthIs(l, i);
    Times(0, k, l.chunk);
    CeilAbove(Length(l, i), l.chunk, k);
    assert (k + 1) * l.chunk == k * l.chunk + l.chunk;
  }

  /** Only one chunk contains an offset. */
  lemma ContainingUnique(l: Layout, ri: nat, rj: nat, off: int)
    requires SizesFit(l) && ri < Count(l) && rj < Count(l) && ChunksPerRegularPiece(l) > 0
    requires Start(l, ToRequest(l, ri)) <= off < End(l, ToRequest(l, ri))
    requires Start(l, ToRequest(l, rj)) <= off < End(l, ToRequest(l, rj))
    ensures ri == rj
  {
    if ri < rj {
      StartsGrow(l, ri, rj);
    } else if rj < ri {
      StartsGrow(l, rj, ri);
    }
  }

  lemma {:induction false} StartsGrow(l: Layout, ri: nat, rj: nat)
    requires SizesFit(l) && ri < rj < Count(l)
    ensures ChunksPerRegularPiece(l) > 0 && End(l, ToRequest(l, ri)) <= Start(l, ToRequest(l, rj))
    decreases rj - ri
  {
    RequestsPartition(l, ri);
    if ri + 1 >= rj {
    } else {
      RequestsPartition(l, ri + 1);
      StartsGrow(l, ri + 1, rj);
    }
  }

  /** A witness: four pieces of three chunks, the last piece with one short chunk. */
  lemma FitsWitness()
    ensures var l := Layout(920, 300, 100);
            Fits(l) && l.NumPieces() == 4 && ChunksPerRegularPiece(l) == 3 && NumChunks(l) == Count(l) == 10
            && ToRequest(l, 9) == Request(3, 0, 20) && FromRequest(l, Request(3, 0, 20)) == 9
  {
  }
}
