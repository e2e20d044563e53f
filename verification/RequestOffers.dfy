/**
 * Where the candidates of a request update come from: the clean chunks of the pieces that the order
 * yields and the peer has.  None of them can fail the checks a request is put to.
 */
module RequestOffers {
  import opened Common
  import opened Division
  import opened ChunkGeometry
  import opened Bitmaps
  import opened ByteAccounting
  import opened PieceOrder
  import opened PiecePicking
  import FileRanges
  import PieceLifecycle
  import RequestScheduler
  import RequestUpdates

  type Torrent = PieceLifecycle.Torrent
  type Offer = RequestScheduler.Offer
  type Checks = RequestScheduler.Checks

  /** What an update looks at, apart from the peer's own books.  The lock is held until it is over. */
  datatype Scene = Scene(
    torrent: Torrent,
    layout: Layout,
    dirty: set<nat>,
    infoHash: seq<byte>,
    order: seq<Item>,                 // pieces of all torrents that share a storage
    lengths: seq<byte> -> nat,
    ignoreOthers: PieceKey -> bool,   // what the other torrents ignore
    capacity: Option<int>,
    maxUnverified: int,
    has: set<int>,                    // the pieces the peer has
    fast: set<int>)                   // and those it allows fast: none, as such messages are not recorded

  predicate Workable(l: Layout) {
    l.pieceLen > 0 && l.chunk > 0 && ChunksPerRegularPiece(l) > 0
  }

  // -------------------------------------------------------- as the program does it

  function NumPendingChunks(s: Scene, i: int): int
    requires Workable(s.layout)
  {
    if i in s.torrent.completed then 0 else U32(PieceNumChunks(s.layout, i) - NumDirtyChunks(s.layout, s.dirty, i))
  }

  predicate IgnorePiece(s: Scene, i: int) {
    i !in s.torrent.pending || (Workable(s.layout) && NumPendingChunks(s, i) == 0)
  }

  function InputOf(s: Scene): Input {
    var ignore := (key: PieceKey) =>
      if key.infoHash == s.infoHash then IgnorePiece(s, key.index) else s.ignoreOthers(key);
    Input(s.lengths, ignore, s.capacity, s.maxUnverified)
  }

  function PieceOf(l: Layout, r: nat): int
    requires Workable(l)
  {
    r / ChunksPerRegularPiece(l)
  }

  /** A chunk that can be received. */
  predicate ValidChunk(l: Layout, r: Request)
    requires Workable(l)
  {
    r.index < l.NumPieces() && r.begin < PieceLength(l, r.index)
  }

  /** What a request for the chunk is checked against. */
  function ChecksOf(s: Scene, r: nat): Checks
    requires Workable(s.layout)
  {
    var i := PieceOf(s.layout, r);
    RequestScheduler.Checks(ValidChunk(s.layout, ToRequest(s.layout, r)), i in s.has,
                            0 <= i < |s.torrent.pieces| && s.torrent.pieces[i].hashing, i in s.torrent.queued)
  }

  /** The clean chunks of a piece. */
  function Undirtied(s: Scene, i: int): seq<nat>
    requires Workable(s.layout)
  {
    var from := PieceIndexOffset(s.layout, i);
    Unset(s.dirty, from, U32(from + PieceNumChunks(s.layout, i)))
  }

  function OfferOf(s: Scene, x: Item, r: nat): Offer
    requires Workable(s.layout)
  {
    RequestScheduler.Offer(r, x.key.index in s.fast, x.state.availability, ChecksOf(s, r))
  }

  function PieceOffers(s: Scene, x: Item, rs: seq<nat>): seq<Offer>
    requires Workable(s.layout)
  {
    if rs == [] then [] else [OfferOf(s, x, rs[0])] + PieceOffers(s, x, rs[1..])
  }

  /** The peer could be asked for the chunks of the piece. */
  predicate OfInterest(s: Scene, x: Item) {
    x.key.infoHash == s.infoHash && x.key.index in s.has
  }

  function ItemOffers(s: Scene, x: Item): seq<Offer>
    requires Workable(s.layout)
  {
    if OfInterest(s, x) then PieceOffers(s, x, Undirtied(s, x.key.index)) else []
  }

  function OffersFrom(s: Scene, emitted: seq<Item>): seq<Offer>
    requires Workable(s.layout)
  {
    if emitted == [] then [] else ItemOffers(s, emitted[0]) + OffersFrom(s, emitted[1..])
  }

  function Offers(s: Scene): seq<Offer>
    requires Workable(s.layout)
  {
    OffersFrom(s, Emitted(InputOf(s), s.order))
  }

  // ------------------------------------------------------------- what is offered

  /** The layout is that of the torrent, its chunks can be told apart, and the order is in order. */
  ghost predicate Right(s: Scene) {
    && Workable(s.layout) && Fits(s.layout) && Ordered(s.order) && s.fast == {}
    && s.layout.pieceLen == s.torrent.pieceLength && s.layout.total == FileRanges.Total(s.torrent.files)
  }

  lemma {:induction false} PieceOffersAre(s: Scene, x: Item, rs: seq<nat>, o: Offer)
    requires Workable(s.layout)
    ensures o in PieceOffers(s, x, rs) <==> o.r in rs && o == OfferOf(s, x, o.r)
  {
    if rs == [] {
    } else {
      PieceOffersAre(s, x, rs[1..], o);
      assert rs == [rs[0]] + rs[1..];
    }
  }

  /** The offer is for a clean chunk of the item. */
  ghost predicate Offered(s: Scene, x: Item, o: Offer)
    requires Workable(s.layout)
  {
    OfInterest(s, x) && o.r in Undirtied(s, x.key.index) && o == OfferOf(s, x, o.r)
  }

  lemma ItemOffersAre(s: Scene, x: Item, o: Offer)
    requires Workable(s.layout)
    ensures o in ItemOffers(s, x) <==> Offered(s, x, o)
  {
    PieceOffersAre(s, x, Undirtied(s, x.key.index), o);
  }

  lemma {:induction false} OfferSource(s: Scene, emitted: seq<Item>, o: Offer) returns (x: Item)
    requires Workable(s.layout) && o in OffersFrom(s, emitted)
    ensures x in emitted && Offered(s, x, o)
  {
    ItemOffersAre(s, emitted[0], o);
    if o in ItemOffers(s, emitted[0]) {
      x := emitted[0];
    } else {
      x := OfferSource(s, emitted[1..], o);
    }
  }

  lemma {:induction false} OfferThere(s: Scene, emitted: seq<Item>, x: Item, o: Offer)
    requires Workable(s.layout) && x in emitted && Offered(s, x, o)
    ensures o in OffersFrom(s, emitted)
  {
    if x == emitted[0] {
      ItemOffersAre(s, x, o);
    } else {
      OfferThere(s, emitted[1..], x, o);
    }
  }

  lemma LastIndex(l: Layout, i: int)
    requires Fits(l) && 0 <= i < l.NumPieces()
    ensures 0 <= i * l.PerPiece() < i * l.PerPiece() + Chunks(l, i) <= Count(l) <= TWO32
  {
    ChunksAre(l, i);
    OffsetBelow(l, i);
    IndexNames(l, i * l.PerPiece() + Chunks(l, i) - 1, i, Chunks(l, i) - 1);
  }

  /** Where the chunks of a piece end: only those of the last piece, of as many as there may be, end at 2^32. */
  lemma EndWraps(l: Layout, i: int)
    requires Fits(l) && 0 <= i < l.NumPieces()
    ensures i * l.PerPiece() + Chunks(l, i) < TWO32 <==> i + 1 < l.NumPieces() || Count(l) < TWO32
  {
    LastIndex(l, i);
    if i + 1 < l.NumPieces() {
      ChunksAre(l, i);
      NextMultiple(i, l.PerPiece());
      OffsetBelow(l, i + 1);
    }
  }

  /**
   * Exactly the chunks of the piece that are not dirty, unless the index after the last one wraps
   * around: then there are none.
   */
  lemma UndirtiedExact(s: Scene, i: int, r: nat)
    requires Workable(s.layout) && Fits(s.layout) && 0 <= i < s.layout.NumPieces()
    ensures r in Undirtied(s, i) <==>
            && Names(s.layout, r, i, r - i * s.layout.PerPiece()) && r !in s.dirty
            && (i + 1 < s.layout.NumPieces() || Count(s.layout) < TWO32)
  {
    var l := s.layout;
    LastIndex(l, i);
    EndWraps(l, i);
    UndirtiedIs(s, i, i * l.PerPiece(), i * l.PerPiece() + Chunks(l, i));
    UnsetMember(s.dirty, i * l.PerPiece(), U32(i * l.PerPiece() + Chunks(l, i)), r);
    WrapOrNot(i * l.PerPiece() + Chunks(l, i));
  }

  lemma UndirtiedIs(s: Scene, i: int, from: nat, to: nat)
    requires Workable(s.layout) && Fits(s.layout) && 0 <= i < s.layout.NumPieces()
    requires from == i * s.layout.PerPiece() && to == from + Chunks(s.layout, i)
    ensures Undirtied(s, i) == Unset(s.dirty, from, U32(to))
  {
    OffsetsAre(s.layout, i);
    PieceNumChunksIs(s.layout, i);
  }

  lemma WrapOrNot(x: int)
    requires 0 <= x <= TWO32
    ensures U32(x) == if x < TWO32 then x else 0
  {
  }

  lemma PieceOfIs(l: Layout, r: nat, i: int, k: int)
    requires Workable(l) && SizesFit(l) && Names(l, r, i, k)
    ensures PieceOf(l, r) == i && ValidChunk(l, ToRequest(l, r))
  {
    ToRequestIs(l, r, i, k);
    ChunkInside(l, i, k);
    ChunksAre(l, i);
    PieceLengthIs(l, i);
    Divides(i, l.PerPiece(), k);
  }

  /** A chunk of a wanted piece that the peer has passes all checks. */
  lemma ChecksPass(s: Scene, r: nat, i: nat, k: int)
    requires Right(s) && PieceLifecycle.Inv(s.torrent) && i in s.torrent.pending && i in s.has
    requires Names(s.layout, r, i, k)
    ensures ChecksOf(s, r).Pass()
  {
    PieceOfIs(s.layout, r, i, k);
    PieceLifecycle.PendingMeaning(s.torrent, i);
  }

  lemma EmittedPending(s: Scene, x: Item)
    requires Ordered(s.order) && x in Emitted(InputOf(s), s.order) && x.key.infoHash == s.infoHash
    ensures x.key.index in s.torrent.pending
  {
    EmittedRight(InputOf(s), s.order);
    assert InputOf(s).ignore(x.key) == IgnorePiece(s, x.key.index);
  }

  lemma PendingChunk(s: Scene, i: nat, r: nat)
    requires Right(s) && PieceLifecycle.Inv(s.torrent) && i in s.torrent.pending && r in Undirtied(s, i)
    ensures Names(s.layout, r, i, r - i * s.layout.PerPiece()) && PieceOf(s.layout, r) == i
    ensures r !in s.dirty && r < Count(s.layout)
  {
    var k := r - i * s.layout.PerPiece();
    PieceLifecycle.PendingMeaning(s.torrent, i);
    UndirtiedExact(s, i, r);
    PieceOfIs(s.layout, r, i, k);
    NamedIsBelow(s.layout, r, i, k);
  }

  /**
   * Every offer is for a clean chunk of a wanted piece that the order yields and the peer has, and it
   * passes the checks: the chunk exists, the peer has the piece, and it is neither hashed nor queued.
   */
  lemma OfferPasses(s: Scene, o: Offer) returns (x: Item)
    requires Right(s) && PieceLifecycle.Inv(s.torrent) && o in Offers(s)
    ensures o.checks.Pass() && o.r !in s.dirty && o.r < Count(s.layout)
    ensures x in Emitted(InputOf(s), s.order) && OfInterest(s, x) && x.key.index == PieceOf(s.layout, o.r)
    ensures x.key.index in s.torrent.pending && o == OfferOf(s, x, o.r)
  {
    x := OfferSource(s, Emitted(InputOf(s), s.order), o);
    EmittedPending(s, x);
    PendingChunk(s, x.key.index, o.r);
    ChecksPass(s, o.r, x.key.index, o.r - x.key.index * s.layout.PerPiece());
  }

  /** What an offer for chunk `k` of piece `i` says. */
  lemma OfferIs(s: Scene, x: Item, r: nat, i: int, k: int)
    requires Workable(s.layout) && SizesFit(s.layout) && Names(s.layout, r, i, k)
    ensures var o := OfferOf(s, x, r);
            && o.r == r && o.availability == x.state.availability && (o.allowedFast <==> x.key.index in s.fast)
            && o.checks.valid && (o.checks.peerHas <==> i in s.has) && (o.checks.queued <==> i in s.torrent.queued)
            && (o.checks.hashing <==> i < |s.torrent.pieces| && s.torrent.pieces[i].hashing)
  {
    PieceOfIs(s.layout, r, i, k);
  }

  /** No offer of a torrent whose cache of wanted pieces is right can fail the checks. */
  lemma AllOffersPass(s: Scene)
    requires Right(s) && PieceLifecycle.Inv(s.torrent)
    ensures RequestUpdates.OffersPass(Offers(s)) && RequestUpdates.NoneFast(Offers(s))
  {
    forall o | o in Offers(s)
      ensures o.checks.Pass() && !o.allowedFast
    {
      var x := OfferPasses(s, o);
    }
  }

  /**
   * A clean chunk of a piece that is yielded is offered, if and only if the piece is not the last one of
   * a torrent with 2^32 chunks.
   */
  lemma OfferedIff(s: Scene, x: Item, r: nat)
    requires Right(s) && PieceLifecycle.Inv(s.torrent)
    requires x in Emitted(InputOf(s), s.order) && OfInterest(s, x)
    requires r < Count(s.layout) && r !in s.dirty && PieceOf(s.layout, r) == x.key.index
    ensures OfferOf(s, x, r) in Offers(s) <==>
            x.key.index + 1 < s.layout.NumPieces() || Count(s.layout) < TWO32
  {
    var i, k := Named(s.layout, r);
    PieceOfIs(s.layout, r, i, k);
    UndirtiedExact(s, i, r);
    if OfferOf(s, x, r) in Offers(s) {
      var z := OfferSource(s, Emitted(InputOf(s), s.order), OfferOf(s, x, r));
      EmittedPending(s, z);
      PendingChunk(s, z.key.index, r);
    } else if r in Undirtied(s, i) {
      OfferThere(s, Emitted(InputOf(s), s.order), x, OfferOf(s, x, r));
    }
  }

  /** Every chunk of the piece is dirty. */
  ghost predicate AllDirty(s: Scene, i: int)
    requires SizesFit(s.layout)
  {
    forall r: nat | Names(s.layout, r, i, r - i * s.layout.PerPiece()) :: r in s.dirty
  }

  lemma AllDirtyIff(s: Scene, i: nat)
    requires Fits(s.layout) && i < s.layout.NumPieces()
    ensures 0 <= i * s.layout.PerPiece() && 0 <= Chunks(s.layout, i)
    ensures AllDirty(s, i) <==>
            |Unset(s.dirty, i * s.layout.PerPiece(), i * s.layout.PerPiece() + Chunks(s.layout, i))| == 0
  {
    var l := s.layout;
    LastIndex(l, i);
    var from: nat, to: nat := i * l.PerPiece(), i * l.PerPiece() + Chunks(l, i);
    UnsetExact(s.dirty, from, to);
    if |Unset(s.dirty, from, to)| > 0 {
      var r := Unset(s.dirty, from, to)[0];
      assert r in Unset(s.dirty, from, to) && Names(l, r, i, r - from);
    } else {
      forall r: nat | Names(l, r, i, r - from)
        ensures r in s.dirty
      {
        assert r !in Unset(s.dirty, from, to);
      }
    }
  }

  lemma PendingIs(n: int, dirty: int, clean: int, missed: int)
    requires clean + dirty == n
    ensures U32(n - U32(dirty - missed)) == U32(clean + missed)
  {
    LeftIs(n, dirty, missed);
  }

  /**
   * A wanted piece is ignored if and only if its clean chunks and those overlooked in counting it add up to
   * nothing, in 32 bits.
   */
  lemma IgnoredIff(s: Scene, i: nat)
    requires Right(s) && PieceLifecycle.Inv(s.torrent) && DirtyOk(s.layout, s.dirty) && IsBitmap(s.dirty)
    requires i in s.torrent.pending
    ensures i < s.layout.NumPieces() && 0 <= i * s.layout.PerPiece() && 0 <= Chunks(s.layout, i)
    ensures var clean := |Unset(s.dirty, i * s.layout.PerPiece(), i * s.layout.PerPiece() + Chunks(s.layout, i))|;
            IgnorePiece(s, i) <==> U32(clean + Overlooked(s.layout, s.dirty, i)) == 0
  {
    PieceLifecycle.PendingMeaning(s.torrent, i);
    LastIndex(s.layout, i);
    NumPendingIs(s, i, i * s.layout.PerPiece(), i * s.layout.PerPiece() + Chunks(s.layout, i));
  }

  lemma NumPendingIs(s: Scene, i: nat, from: nat, to: nat)
    requires Workable(s.layout) && Fits(s.layout) && DirtyOk(s.layout, s.dirty) && IsBitmap(s.dirty)
    requires i < s.layout.NumPieces() && i !in s.torrent.completed
    requires from == i * s.layout.PerPiece() && to == from + Chunks(s.layout, i)
    ensures NumPendingChunks(s, i) == U32(|Unset(s.dirty, from, to)| + Overlooked(s.layout, s.dirty, i))
  {
    PieceNumChunksIs(s.layout, i);
    DirtyCount(s.layout, s.dirty, i);
    UnsetCount(s.dirty, from, to);
    PendingIs(to - from, |Between(s.dirty, from, to)|, |Unset(s.dirty, from, to)|, Overlooked(s.layout, s.dirty, i));
  }

  /** Where the dirty chunks are counted right, that is if and only if all of its chunks are dirty. */
  lemma IgnoredMeaning(s: Scene, i: nat)
    requires Right(s) && PieceLifecycle.Inv(s.torrent) && DirtyOk(s.layout, s.dirty) && IsBitmap(s.dirty)
    requires i in s.torrent.pending && Overlooked(s.layout, s.dirty, i) == 0
    ensures IgnorePiece(s, i) <==> AllDirty(s, i)
  {
    var l := s.layout;
    IgnoredIff(s, i);
    AllDirtyIff(s, i);
    LastIndex(l, i);
    PerPieceFits(l);
    ChunksAre(l, i);
    var from: nat, to: nat := i * l.PerPiece(), i * l.PerPiece() + Chunks(l, i);
    UnsetCount(s.dirty, from, to);
    Unwrapped(|Unset(s.dirty, from, to)|);
  }

  /**
   * Without limits on what is fetched, every clean chunk of a wanted piece that is in the order and that the
   * peer has is offered, if the dirty chunks of the piece are counted right and its indices do not wrap around.
   */
  lemma EveryChunkOffered(s: Scene, x: Item, r: nat)
    requires Right(s) && PieceLifecycle.Inv(s.torrent) && DirtyOk(s.layout, s.dirty) && IsBitmap(s.dirty)
    requires s.capacity.None? && s.maxUnverified == 0
    requires x in s.order && OfInterest(s, x) && x.key.index in s.torrent.pending
    requires x.key.index + 1 < s.layout.NumPieces() || Count(s.layout) < TWO32
    requires Overlooked(s.layout, s.dirty, x.key.index) == 0
    requires r < Count(s.layout) && r !in s.dirty && PieceOf(s.layout, r) == x.key.index
    ensures OfferOf(s, x, r) in Offers(s)
  {
    var i, k := Named(s.layout, r);
    PieceOfIs(s.layout, r, i, k);
    IgnoredMeaning(s, i);
    assert !AllDirty(s, i);
    assert InputOf(s).ignore(x.key) == IgnorePiece(s, x.key.index);
    UnlimitedEmits(InputOf(s), s.order, x);
    OfferedIff(s, x, r);
  }

  lemma FullLayoutIs(l: Layout)
    requires l == Layout(0x4000_0000_0000, 0x300_0000, 0x4000)
    ensures Workable(l) && Fits(l) && Count(l) == TWO32 && l.NumPieces() == 1398102 && Chunks(l, 1398101) == 1024
    ensures PieceIndexOffset(l, 1398101) == TWO32 - 1024 && PieceNumChunks(l, 1398101) == 1024
  {
  }

  /** 64 TiB in pieces of 48 MiB and chunks of 16 KiB: none of the 1024 chunks of the last piece is ever asked for. */
  lemma NeverOffered(s: Scene)
    requires s.layout == Layout(0x4000_0000_0000, 0x300_0000, 0x4000)
    ensures Workable(s.layout) && Fits(s.layout) && s.layout.NumPieces() == 1398102 && Chunks(s.layout, 1398101) == 1024
    ensures Undirtied(s, 1398101) == []
  {
    FullLayoutIs(s.layout);
  }
}
