/**
 * The life of the pieces of a torrent: priorities from files, readers and the user, completion, and
 * hashing with the client lock released in between.  `pending` caches which pieces are wanted.
 * Every step is what happens while the client lock is held.
 */
module PieceLifecycle {
  import opened Common
  import opened Division
  import opened FileRanges

  const NONE := 0
  const NORMAL := 1
  const READAHEAD := 3
  const NOW := 5

  datatype Piece = Piece(priority: nat, hashing: bool, marking: bool, storageOk: bool)

  /** Piece indices from `begin` up to `end`, exclusive. */
  datatype Range = Range(begin: nat, end: nat) {
    /** All of the range but its first piece. */
    function Ahead(): set<nat> {
      Span(begin + 1, end)
    }
  }

  datatype Reading = Reading(
    ranges: map<nat, Range>,   // the range cached in every reader
    registered: set<nat>,      // the readers the torrent knows
    now: set<nat>,             // pieces being read
    readahead: set<nat>)       // pieces about to be read

  datatype Torrent = Torrent(
    pieceLength: nat,
    files: seq<File>,
    pieces: seq<Piece>,
    completed: set<nat>,
    queued: set<nat>,          // pieces queued for hashing
    pending: set<nat>,         // pieces we need to get
    reading: Reading,
    marks: multiset<nat>,      // hashers that released the lock to mark their piece complete
    active: nat,               // number of running hashers
    hasStorage: bool,
    closed: bool)
  {
    function PieceBegin(i: nat): nat {
      i * pieceLength
    }

    function PieceEnd(i: nat): nat {
      if (i + 1) * pieceLength < Total(files) then (i + 1) * pieceLength else Total(files)
    }

    /** The files of a piece. */
    function FilesOf(i: nat): seq<File> {
      var a, b := FirstFile(files, PieceBegin(i)), EndFile(files, PieceEnd(i));
      if a <= b then files[a..b] else []
    }

    function PurePriority(i: nat): nat
      requires i < |pieces|
    {
      var byFiles := HighestPrio(FilesOf(i));
      var byNow := if i in reading.now then Max(byFiles, NOW) else byFiles;
      var byAhead := if i in reading.readahead then Max(byNow, READAHEAD) else byNow;
      Max(byAhead, pieces[i].priority)
    }

    function UncachedPriority(i: nat): nat
      requires i < |pieces|
    {
      var p := pieces[i];
      if p.hashing || p.marking || i in completed || i in queued then NONE else PurePriority(i)
    }

    predicate Wanted(i: nat) {
      i < |pieces| && UncachedPriority(i) != NONE
    }
  }

  function HighestPrio(files: seq<File>): nat {
    if files == [] then NONE else Max(files[0].prio, HighestPrio(files[1..]))
  }

  // ------------------------------------------------------------- priorities

  function UpdatePriority(t: Torrent, i: nat): Torrent {
    t.(pending := if t.Wanted(i) then t.pending + {i} else t.pending - {i})
  }

  function UpdatePriorities(t: Torrent, begin: nat, end: nat): Torrent
    decreases end - begin
  {
    if begin >= end then t else UpdatePriorities(UpdatePriority(t, begin), begin + 1, end)
  }

  function SetFilePriority(t: Torrent, f: nat, prio: nat): Torrent
    requires f < |t.files|
  {
    if t.files[f].prio == prio then t
    else
      var t1 := t.(files := t.files[f := t.files[f].(prio := prio)]);
      UpdatePriorities(t1, BeginPieceIndex(t.files[f], t.pieceLength), EndPieceIndex(t.files[f], t.pieceLength))
  }

  function SetPiece(t: Torrent, i: nat, p: Piece): Torrent
    requires i < |t.pieces|
  {
    t.(pieces := t.pieces[i := p])
  }

  function SetPiecePriority(t: Torrent, i: nat, prio: nat): Torrent
    requires i < |t.pieces|
  {
    UpdatePriority(SetPiece(t, i, t.pieces[i].(priority := prio)), i)
  }

  /** Raise the pieces of a range to at least normal priority. */
  function DownloadPieces(t: Torrent, begin: nat, end: nat): Torrent
    requires end <= |t.pieces|
    decreases end - begin
  {
    if begin >= end then t
    else
      var t1 := if t.pieces[begin].priority < NORMAL then SetPiecePriority(t, begin, NORMAL) else t;
      DownloadPieces(t1, begin + 1, end)
  }

  function CancelPieces(t: Torrent, begin: nat, end: nat): Torrent
    requires end <= |t.pieces|
    decreases end - begin
  {
    if begin >= end then t
    else
      var t1 := if t.pieces[begin].priority != NONE then SetPiecePriority(t, begin, NONE) else t;
      CancelPieces(t1, begin + 1, end)
  }

  // ---------------------------------------------------------------- readers

  /** Some registered reader is at this piece. */
  ghost predicate ReadNow(r: Reading, i: nat) {
    exists q | q in r.registered :: q in r.ranges && r.ranges[q].begin == i < r.ranges[q].end
  }

  /** Some registered reader wants this piece next. */
  ghost predicate ReadAhead(r: Reading, i: nat) {
    exists q | q in r.registered :: q in r.ranges && r.ranges[q].begin < i < r.ranges[q].end
  }

  function NowPieces(r: Reading): set<nat> {
    set q | q in r.registered && q in r.ranges && r.ranges[q].begin < r.ranges[q].end :: r.ranges[q].begin
  }

  function AheadPieces(r: Reading): set<nat> {
    set q, i | q in r.registered && q in r.ranges && i in r.ranges[q].Ahead() :: i
  }

  function Span(begin: nat, end: nat): (s: set<nat>)
    ensures forall i :: i in s <==> begin <= i < end
    decreases end - begin
  {
    if begin >= end then {} else {begin} + Span(begin + 1, end)
  }

  /** Recompute what the registered readers want. */
  function UpdateReaderPieces(t: Torrent): Torrent {
    t.(reading := t.reading.(now := NowPieces(t.reading), readahead := AheadPieces(t.reading)))
  }

  /** Refresh the pieces of both ranges, as one range when they meet. */
  function ReaderPosChanged(t: Torrent, from: Range, to: Range): Torrent {
    if from == to then t
    else
      var t1 := UpdateReaderPieces(t);
      var (l, h) := if from.begin > to.begin then (to, from) else (from, to);
      if l.end < h.begin then
        UpdatePriorities(UpdatePriorities(t1, l.begin, l.end), h.begin, h.end)
      else
        UpdatePriorities(t1, l.begin, if h.end > l.end then h.end else l.end)
  }

  /** A reader that now wants `to`. */
  function PosChanged(t: Torrent, r: nat, to: Range): Torrent
    requires r in t.reading.ranges
  {
    var from := t.reading.ranges[r];
    if to == from then t
    else ReaderPosChanged(t.(reading := t.reading.(ranges := t.reading.ranges[r := to])), from, to)
  }

  /** A new reader, which wants nothing before it is placed. */
  function AddReader(t: Torrent, r: nat, to: Range): Torrent {
    var reading := t.reading.(registered := t.reading.registered + {r},
                              ranges := t.reading.ranges[r := Range(0, 0)]);
    PosChanged(t.(reading := reading), r, to)
  }

  function DeleteReader(t: Torrent, r: nat): Torrent {
    var t1 := UpdateReaderPieces(t.(reading := t.reading.(registered := t.reading.registered - {r})));
    UpdatePriorities(t1, 0, |t1.pieces|)
  }

  // ---------------------------------------------------- completion, hashing

  /** Take over the completion the storage reports. */
  function UpdateCompletion(t: Torrent, i: nat, complete: bool, ok: bool): Torrent
    requires i < |t.pieces|
  {
    var changed := (i in t.completed) != complete || t.pieces[i].storageOk != ok;
    var t1 := SetPiece(t, i, t.pieces[i].(storageOk := ok));
    var t2 := t1.(completed := if complete then t1.completed + {i} else t1.completed - {i});
    if changed then UpdatePriority(t2, i) else t2
  }

  /** The first queued piece from `i` on that is not being hashed. */
  function PieceToHash(t: Torrent, i: nat := 0): (r: Option<nat>)
    ensures r.Some? ==> i <= r.value < |t.pieces| && r.value in t.queued && !t.pieces[r.value].hashing
    ensures forall j | i <= j < (if r.Some? then r.value else |t.pieces|) :: j !in t.queued || t.pieces[j].hashing
    decreases |t.pieces| - i
  {
    if i >= |t.pieces| then None
    else if i in t.queued && !t.pieces[i].hashing then Some(i)
    else PieceToHash(t, i + 1)
  }

  function StartHasher(t: Torrent, i: nat): Torrent
    requires i < |t.pieces|
  {
    var t1 := SetPiece(t.(queued := t.queued - {i}), i, t.pieces[i].(hashing := true));
    UpdatePriority(t1, i).(active := t.active + 1)
  }

  function TryCreateMoreHashers(t: Torrent): Torrent
    decreases 2 - t.active
  {
    if t.closed || t.active >= 2 || !t.hasStorage || PieceToHash(t).None? then t
    else TryCreateMoreHashers(StartHasher(t, PieceToHash(t).value))
  }

  function QueueCheck(t: Torrent, i: nat): Torrent
    requires i < |t.pieces|
  {
    if i in t.queued then t
    else TryCreateMoreHashers(UpdatePriority(t.(queued := t.queued + {i}), i))
  }

  /** What every hasher does last. */
  function FinishHasher(t: Torrent, i: nat): Torrent
    requires i < |t.pieces| && t.active > 0
  {
    TryCreateMoreHashers(UpdatePriority(t, i).(active := t.active - 1))
  }

  /**
   * A hasher has read its piece.  If the hash is right it releases the lock again to mark the piece
   * complete; otherwise it takes over what the storage then says, and ends.
   */
  function HashDone(t: Torrent, i: nat, passed: bool, complete: bool, ok: bool): Torrent
    requires i < |t.pieces| && t.active > 0
  {
    var t1 := SetPiece(t, i, t.pieces[i].(hashing := false));
    if t.closed then FinishHasher(t1, i)
    else
      var t2 := SetPiece(t1, i, t1.pieces[i].(marking := true));
      if passed then t2.(marks := t2.marks + multiset{i})
      else
        var t3 := UpdateCompletion(t2, i, complete, ok);
        FinishHasher(SetPiece(t3, i, t3.pieces[i].(marking := false)), i)
  }

  /** A hasher is back from marking its piece. */
  function MarkDone(t: Torrent, i: nat, complete: bool, ok: bool): Torrent
    requires i < |t.pieces| && t.active > 0
  {
    var t1 := t.(marks := t.marks - multiset{i});
    var t2 := if t.closed then t1 else UpdateCompletion(t1, i, complete, ok);
    FinishHasher(SetPiece(t2, i, t2.pieces[i].(marking := false)), i)
  }

  // ------------------------------------------------------------- invariants

  /** The shape of the torrent, fixed once the info is known. */
  ghost predicate Shaped(t: Torrent) {
    && t.pieceLength > 0 && Laid(t.files)
    && |t.pieces| == CeilDiv(Total(t.files), t.pieceLength)
    && (forall r | r in t.reading.ranges :: t.reading.ranges[r].begin <= t.reading.ranges[r].end <= |t.pieces|)
    && t.reading.registered <= t.reading.ranges.Keys
    && (forall i | i in t.queued :: i < |t.pieces|)
  }

  /** The cache of wanted pieces is right. */
  ghost predicate PendingRight(t: Torrent) {
    forall i: nat :: i in t.pending <==> t.Wanted(i)
  }

  ghost predicate ReadersRight(t: Torrent) {
    && (forall i :: i in t.reading.now <==> ReadNow(t.reading, i))
    && (forall i :: i in t.reading.readahead <==> ReadAhead(t.reading, i))
  }

  function BeingHashed(pieces: seq<Piece>): nat {
    if pieces == [] then 0
    else (if pieces[0].hashing then 1 else 0) + BeingHashed(pieces[1..])
  }

  /** Every running hasher either hashes a piece of its own or is marking one; there are at most two. */
  ghost predicate HashersRight(t: Torrent) {
    && t.active == BeingHashed(t.pieces) + |t.marks|
    && t.active <= 2
    && (forall i | i in t.marks :: i < |t.pieces|)
  }

  ghost predicate Inv(t: Torrent) {
    Shaped(t) && PendingRight(t) && ReadersRight(t) && HashersRight(t)
  }

  /** Nothing a request is made for is being hashed, marked, queued or complete. */
  lemma PendingMeaning(t: Torrent, i: nat)
    requires Inv(t) && i in t.pending
    ensures i < |t.pieces| && !t.pieces[i].hashing && !t.pieces[i].marking
    ensures i !in t.queued && i !in t.completed && t.PurePriority(i) != NONE
  {
  }

  /** A file that reaches into the piece has a priority. */
  ghost predicate AskedByFile(t: Torrent, i: nat, k: nat) {
    && k < |t.files| && t.files[k].prio != NONE
    && t.files[k].offset < t.PieceEnd(i) && t.PieceBegin(i) < t.files[k].End()
  }

  /** A reader wants the piece. */
  ghost predicate AskedByReader(t: Torrent, i: nat, r: nat) {
    r in t.reading.registered && r in t.reading.ranges && t.reading.ranges[r].begin <= i < t.reading.ranges[r].end
  }

  /**
   * What the cache means: a piece is in it if and only if somebody asks for it, a file, a reader or
   * the user, and it is neither complete nor being checked.
   */
  lemma WantedMeaning(t: Torrent, i: nat)
    requires Inv(t) && i < |t.pieces|
    ensures var p := t.pieces[i];
            i in t.pending <==>
            && !p.hashing && !p.marking && i !in t.queued && i !in t.completed
            && ((exists k: nat :: AskedByFile(t, i, k)) || (exists r :: AskedByReader(t, i, r)) || p.priority != NONE)
  {
    ReadMeaning(t, i);
    FilesMeaning(t, i);
  }

  lemma ReadMeaning(t: Torrent, i: nat)
    requires ReadersRight(t)
    ensures (exists r :: AskedByReader(t, i, r)) <==> i in t.reading.now || i in t.reading.readahead
  {
    assert i in t.reading.now <==> ReadNow(t.reading, i);
    assert i in t.reading.readahead <==> ReadAhead(t.reading, i);
    if ReadNow(t.reading, i) || ReadAhead(t.reading, i) {
      var r :| r in t.reading.registered && r in t.reading.ranges &&
               t.reading.ranges[r].begin <= i < t.reading.ranges[r].end;
      assert AskedByReader(t, i, r);
    }
  }

  lemma FilesMeaning(t: Torrent, i: nat)
    requires Shaped(t) && i < |t.pieces|
    ensures (exists k: nat :: AskedByFile(t, i, k)) <==> HighestPrio(t.FilesOf(i)) != NONE
  {
    var a, b := FirstFile(t.files, t.PieceBegin(i)), EndFile(t.files, t.PieceEnd(i));
    SomePrio(t.FilesOf(i));
    if k: nat :| AskedByFile(t, i, k) {
      FileOfPiece(t, i, k);
      assert t.FilesOf(i)[k - a] == t.files[k];
    }
    if j :| 0 <= j < |t.FilesOf(i)| && t.FilesOf(i)[j].prio != NONE {
      FileOfPiece(t, i, a + j);
      assert AskedByFile(t, i, a + j);
    }
  }

  lemma FileOfPiece(t: Torrent, i: nat, k: nat)
    requires Shaped(t) && i < |t.pieces|
    ensures FirstFile(t.files, t.PieceBegin(i)) <= k < EndFile(t.files, t.PieceEnd(i)) <==>
            k < |t.files| && t.files[k].offset < t.PieceEnd(i) && t.PieceBegin(i) < t.files[k].End()
  {
    PieceInData(t, i);
    PieceFilesExact(t.files, t.PieceBegin(i), t.PieceEnd(i), k);
  }

  lemma PieceInData(t: Torrent, i: nat)
    requires Shaped(t) && i < |t.pieces|
    ensures t.PieceBegin(i) < t.PieceEnd(i) <= Total(t.files)
  {
    CeilAbove(Total(t.files), t.pieceLength, i);
    assert (i + 1) * t.pieceLength == i * t.pieceLength + t.pieceLength;
  }

  lemma {:induction false} SomePrio(files: seq<File>)
    ensures HighestPrio(files) != NONE <==> exists j :: 0 <= j < |files| && files[j].prio != NONE
  {
    if files == [] {
    } else {
      SomePrio(files[1..]);
      if j :| 0 <= j < |files| && files[j].prio != NONE {
        assert j > 0 ==> files[1..][j - 1].prio != NONE;
      }
      if HighestPrio(files[1..]) != NONE {
        var j :| 0 <= j < |files[1..]| && files[1..][j].prio != NONE;
        assert files[j + 1].prio != NONE;
      }
    }
  }

  // ------------------------------------------------------ what updating does

  /** Apart from `pending`, nothing changes. */
  ghost predicate OnlyPending(t: Torrent, t1: Torrent) {
    t1 == t.(pending := t1.pending)
  }

  lemma {:induction false} UpdatePrioritiesDoes(t: Torrent, begin: nat, end: nat)
    ensures OnlyPending(t, UpdatePriorities(t, begin, end))
    ensures forall i: nat :: i in UpdatePriorities(t, begin, end).pending <==>
                             if begin <= i < end then t.Wanted(i) else i in t.pending
    decreases end - begin
  {
    if begin >= end {
    } else {
      var t1 := UpdatePriority(t, begin);
      assert forall i: nat :: t1.Wanted(i) == t.Wanted(i);
      UpdatePrioritiesDoes(t1, begin + 1, end);
    }
  }

  /** Outside the range, the two torrents want the same pieces. */
  ghost predicate SameOutside(t: Torrent, t1: Torrent, begin: nat, end: nat) {
    forall i: nat | !(begin <= i < end) :: t1.Wanted(i) == t.Wanted(i)
  }

  /** Refreshing a range that covers all changes makes the cache right again. */
  lemma RefreshRight(t: Torrent, t1: Torrent, begin: nat, end: nat)
    requires PendingRight(t) && t1.pending == t.pending && SameOutside(t, t1, begin, end)
    ensures PendingRight(UpdatePriorities(t1, begin, end))
    ensures OnlyPending(t1, UpdatePriorities(t1, begin, end))
  {
    UpdatePrioritiesDoes(t1, begin, end);
    var t2 := UpdatePriorities(t1, begin, end);
    forall i: nat
      ensures i in t2.pending <==> t2.Wanted(i)
    {
      assert t2.Wanted(i) == t1.Wanted(i);
    }
  }

  /** The cache has no say in what is wanted. */
  lemma WantedAnyway(t: Torrent, pending: set<nat>, i: nat)
    ensures t.(pending := pending).Wanted(i) == t.Wanted(i)
  {
  }

  lemma RefreshOneRight(t: Torrent, t1: Torrent, i: nat)
    requires PendingRight(t) && t1.pending == t.pending && SameOutside(t, t1, i, i + 1)
    ensures PendingRight(UpdatePriority(t1, i))
  {
    var t2 := UpdatePriority(t1, i);
    forall j: nat
      ensures j in t2.pending <==> t2.Wanted(j)
    {
      WantedAnyway(t1, t2.pending, j);
      if j != i {
        assert t1.Wanted(j) == t.Wanted(j);
      }
    }
  }

  // ----------------------------------------------- what every step preserves

  /** The two pieces are equally wanted, as far as the piece itself goes. */
  lemma SamePriority(t: Torrent, t1: Torrent, i: nat)
    requires |t1.pieces| == |t.pieces| && t1.pieceLength == t.pieceLength && t1.files == t.files
    requires (i in t1.reading.now) == (i in t.reading.now)
    requires (i in t1.reading.readahead) == (i in t.reading.readahead)
    requires i < |t.pieces| ==> t1.pieces[i] == t.pieces[i]
    requires (i in t1.completed) == (i in t.completed) && (i in t1.queued) == (i in t.queued)
    ensures t1.Wanted(i) == t.Wanted(i)
  {
  }

  lemma {:induction false} HighestPrioSame(a: seq<File>, b: seq<File>)
    requires |a| == |b| && forall k | 0 <= k < |a| :: a[k].prio == b[k].prio
    ensures HighestPrio(a) == HighestPrio(b)
  {
    if a == [] {
    } else {
      HighestPrioSame(a[1..], b[1..]);
    }
  }

  /** The file boundaries do not depend on the priorities. */
  lemma {:induction false} BoundariesSame(a: seq<File>, b: seq<File>, off: nat, k: nat)
    requires |a| == |b| && k <= |a| && forall j | 0 <= j < |a| :: a[j].offset == b[j].offset && a[j].length == b[j].length
    ensures FirstFile(a, off, k) == FirstFile(b, off, k) && EndFile(a, off, k) == EndFile(b, off, k)
    decreases |a| - k
  {
    if k >= |a| {
    } else {
      BoundariesSame(a, b, off, k + 1);
    }
  }

  /** A piece outside a file's range does not look at the file. */
  lemma FileOutside(t: Torrent, f: nat, i: nat)
    requires Shaped(t) && f < |t.files| && i < |t.pieces|
    requires !(BeginPieceIndex(t.files[f], t.pieceLength) <= i < EndPieceIndex(t.files[f], t.pieceLength))
    ensures !(FirstFile(t.files, t.PieceBegin(i)) <= f < EndFile(t.files, t.PieceEnd(i)))
  {
    CeilAbove(Total(t.files), t.pieceLength, i);
    assert (i + 1) * t.pieceLength == i * t.pieceLength + t.pieceLength;
    if f < |t.files| - 1 {
      LaidOrder(t.files, f, |t.files| - 1);
    }
    if t.files[f].offset < Total(t.files) {
      FilePiecesExact(t.files, t.pieceLength, f, i);
    } else {
      TrailingFileUnused(t.files, t.PieceBegin(i), t.PieceEnd(i), f);
    }
  }

  /** Changing the priority of a file that a piece does not look at. */
  lemma OtherFile(t: Torrent, t1: Torrent, f: nat, prio: nat, i: nat)
    requires f < |t.files| && t1 == t.(files := t.files[f := t.files[f].(prio := prio)])
    requires !(FirstFile(t.files, t.PieceBegin(i)) <= f < EndFile(t.files, t.PieceEnd(i)))
    ensures HighestPrio(t1.FilesOf(i)) == HighestPrio(t.FilesOf(i))
  {
    BoundariesSame(t.files, t1.files, t.PieceBegin(i), 0);
    BoundariesSame(t.files, t1.files, t.PieceEnd(i), 0);
    HighestPrioSame(t.FilesOf(i), t1.FilesOf(i));
  }

  lemma SetFilePriorityKeeps(t: Torrent, f: nat, prio: nat)
    requires Inv(t) && f < |t.files|
    ensures Inv(SetFilePriority(t, f, prio))
    ensures SetFilePriority(t, f, prio).files == t.files[f := t.files[f].(prio := prio)]
  {
    var t1 := t.(files := t.files[f := t.files[f].(prio := prio)]);
    var begin := BeginPieceIndex(t.files[f], t.pieceLength);
    var end := EndPieceIndex(t.files[f], t.pieceLength);
    forall i: nat | !(begin <= i < end)
      ensures t1.Wanted(i) == t.Wanted(i)
    {
      if i < |t.pieces| {
        FileOutside(t, f, i);
        OtherFile(t, t1, f, prio, i);
      }
    }
    RefreshRight(t, t1, begin, end);
    if t.files[f].prio == prio {
      assert t.files[f := t.files[f].(prio := prio)] == t.files;
    }
  }

  /** A piece may change anything but whether it is being hashed, if it is refreshed. */
  lemma PieceChangeKeeps(t: Torrent, i: nat, p: Piece)
    requires Inv(t) && i < |t.pieces| && p.hashing == t.pieces[i].hashing
    ensures Inv(UpdatePriority(SetPiece(t, i, p), i))
  {
    var t1 := SetPiece(t, i, p);
    forall j: nat | !(i <= j < i + 1)
      ensures t1.Wanted(j) == t.Wanted(j)
    {
      SamePriority(t, t1, j);
    }
    RefreshOneRight(t, t1, i);
    BeingHashedUpdate(t.pieces, i, p);
  }

  lemma {:induction false} BeingHashedUpdate(pieces: seq<Piece>, i: nat, p: Piece)
    requires i < |pieces|
    ensures BeingHashed(pieces[i := p]) ==
            BeingHashed(pieces) + (if p.hashing then 1 else 0) - (if pieces[i].hashing then 1 else 0)
  {
    if i > 0 {
      BeingHashedUpdate(pieces[1..], i - 1, p);
      assert pieces[i := p][1..] == pieces[1..][i - 1 := p];
    } else {
      assert pieces[i := p][1..] == pieces[1..];
    }
  }

  lemma {:induction false} DownloadPiecesKeeps(t: Torrent, begin: nat, end: nat)
    requires Inv(t) && end <= |t.pieces|
    ensures Inv(DownloadPieces(t, begin, end))
    decreases end - begin
  {
    if begin >= end {
    } else {
      var t1 := if t.pieces[begin].priority < NORMAL then SetPiecePriority(t, begin, NORMAL) else t;
      PieceChangeKeeps(t, begin, t.pieces[begin].(priority := NORMAL));
      DownloadPiecesKeeps(t1, begin + 1, end);
    }
  }

  lemma {:induction false} CancelPiecesKeeps(t: Torrent, begin: nat, end: nat)
    requires Inv(t) && end <= |t.pieces|
    ensures Inv(CancelPieces(t, begin, end))
    decreases end - begin
  {
    if begin >= end {
    } else {
      var t1 := if t.pieces[begin].priority != NONE then SetPiecePriority(t, begin, NONE) else t;
      PieceChangeKeeps(t, begin, t.pieces[begin].(priority := NONE));
      CancelPiecesKeeps(t1, begin + 1, end);
    }
  }

  // ---------------------------------------------------------------- readers

  lemma UpdateReaderPiecesRight(t: Torrent)
    requires Shaped(t)
    ensures ReadersRight(UpdateReaderPieces(t))
  {
    var r := UpdateReaderPieces(t).reading;
    forall i: nat
      ensures i in r.now <==> ReadNow(r, i)
      ensures i in r.readahead <==> ReadAhead(r, i)
    {
      if i in r.now {
        var q :| q in r.registered && q in r.ranges && r.ranges[q].begin < r.ranges[q].end && r.ranges[q].begin == i;
      }
      if ReadNow(r, i) {
        var q :| q in r.registered && q in r.ranges && r.ranges[q].begin == i < r.ranges[q].end;
      }
      if ReadAhead(r, i) {
        var q :| q in r.registered && q in r.ranges && r.ranges[q].begin < i < r.ranges[q].end;
        assert i in r.ranges[q].Ahead();
      }
    }
  }
}
