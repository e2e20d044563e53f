/**
 * The cache of wanted pieces is right whenever the client lock is free: over every mix of priority
 * changes, reader moves, completion changes and hashing steps, with hashers overtaking each other.
 */
module PieceRuns {
  import opened Common
  import opened Division
  import opened FileRanges
  import opened PieceLifecycle

  // ---------------------------------------------------------------- readers

  /** A piece in neither range is read as before. */
  lemma ReadersOutside(r0: Reading, r1: Reading, q: nat, to: Range, i: nat)
    requires q in r0.ranges && r1.ranges == r0.ranges[q := to] && r1.registered == r0.registered
    requires !(r0.ranges[q].begin <= i < r0.ranges[q].end) && !(to.begin <= i < to.end)
    ensures ReadNow(r1, i) == ReadNow(r0, i) && ReadAhead(r1, i) == ReadAhead(r0, i)
  {
    if ReadNow(r0, i) {
      var p :| p in r0.registered && p in r0.ranges && r0.ranges[p].begin == i < r0.ranges[p].end;
      assert p in r1.registered && r1.ranges[p] == r0.ranges[p];
    }
    if ReadNow(r1, i) {
      var p :| p in r1.registered && p in r1.ranges && r1.ranges[p].begin == i < r1.ranges[p].end;
      assert p in r0.registered && r0.ranges[p] == r1.ranges[p];
    }
    if ReadAhead(r0, i) {
      var p :| p in r0.registered && p in r0.ranges && r0.ranges[p].begin < i < r0.ranges[p].end;
      assert p in r1.registered && r1.ranges[p] == r0.ranges[p];
    }
    if ReadAhead(r1, i) {
      var p :| p in r1.registered && p in r1.ranges && r1.ranges[p].begin < i < r1.ranges[p].end;
      assert p in r0.registered && r0.ranges[p] == r1.ranges[p];
    }
  }

  /** The state after a reader moved and the read pieces were recomputed, before the refresh. */
  lemma MovedReader(t: Torrent, q: nat, to: Range, t1: Torrent)
    requires Inv(t) && q in t.reading.ranges && to.begin <= to.end <= |t.pieces|
    requires t1 == UpdateReaderPieces(t.(reading := t.reading.(ranges := t.reading.ranges[q := to])))
    ensures Shaped(t1) && ReadersRight(t1) && HashersRight(t1)
    ensures var from := t.reading.ranges[q];
            forall i: nat | !(from.begin <= i < from.end) && !(to.begin <= i < to.end) :: t1.Wanted(i) == t.Wanted(i)
  {
    var t0 := t.(reading := t.reading.(ranges := t.reading.ranges[q := to]));
    assert Shaped(t0);
    UpdateReaderPiecesRight(t0);
    var from := t.reading.ranges[q];
    forall i: nat | !(from.begin <= i < from.end) && !(to.begin <= i < to.end)
      ensures t1.Wanted(i) == t.Wanted(i)
    {
      ReadersOutside(t.reading, t0.reading, q, to, i);
      assert ReadNow(t1.reading, i) == ReadNow(t0.reading, i);
      assert ReadAhead(t1.reading, i) == ReadAhead(t0.reading, i);
      SamePriority(t, t1, i);
    }
  }

  /** Two refreshed ranges together cover what changed. */
  lemma RefreshTwoRight(t: Torrent, t1: Torrent, l: Range, h: Range)
    requires PendingRight(t) && t1.pending == t.pending
    requires forall i: nat | !(l.begin <= i < l.end) && !(h.begin <= i < h.end) :: t1.Wanted(i) == t.Wanted(i)
    ensures var t2 := UpdatePriorities(UpdatePriorities(t1, l.begin, l.end), h.begin, h.end);
            PendingRight(t2) && OnlyPending(t1, t2)
  {
    UpdatePrioritiesDoes(t1, l.begin, l.end);
    var t2 := UpdatePriorities(t1, l.begin, l.end);
    UpdatePrioritiesDoes(t2, h.begin, h.end);
    var t3 := UpdatePriorities(t2, h.begin, h.end);
    forall i: nat
      ensures i in t3.pending <==> t3.Wanted(i)
    {
      WantedSame(t1, t2, i);
      WantedSame(t2, t3, i);
      assert i in t.pending <==> t.Wanted(i);
      assert i in t2.pending <==> if l.begin <= i < l.end then t1.Wanted(i) else i in t1.pending;
    }
  }

  lemma WantedSame(t: Torrent, t1: Torrent, i: nat)
    requires OnlyPending(t, t1)
    ensures t1.Wanted(i) == t.Wanted(i)
  {
  }

  lemma OnlyPendingKeeps(t: Torrent, t1: Torrent)
    requires Shaped(t) && ReadersRight(t) && HashersRight(t) && OnlyPending(t, t1) && PendingRight(t1)
    ensures Inv(t1)
  {
  }

  lemma PosChangedKeeps(t: Torrent, q: nat, to: Range)
    requires Inv(t) && q in t.reading.ranges && to.begin <= to.end <= |t.pieces|
    ensures Inv(PosChanged(t, q, to))
  {
    var from := t.reading.ranges[q];
    if to != from {
      var t1 := UpdateReaderPieces(t.(reading := t.reading.(ranges := t.reading.ranges[q := to])));
      MovedReader(t, q, to, t1);
      var (l, h) := if from.begin > to.begin then (to, from) else (from, to);
      if l.end < h.begin {
        RefreshTwoRight(t, t1, l, h);
        OnlyPendingKeeps(t1, PosChanged(t, q, to));
      } else {
        var end := if h.end > l.end then h.end else l.end;
        assert SameOutside(t, t1, l.begin, end);
        RefreshRight(t, t1, l.begin, end);
        OnlyPendingKeeps(t1, PosChanged(t, q, to));
      }
    }
  }

  lemma AddReaderKeeps(t: Torrent, q: nat, to: Range)
    requires Inv(t) && q !in t.reading.ranges && to.begin <= to.end <= |t.pieces|
    ensures Inv(AddReader(t, q, to))
  {
    var t0 := t.(reading := t.reading.(registered := t.reading.registered + {q},
                                       ranges := t.reading.ranges[q := Range(0, 0)]));
    forall i: nat
      ensures ReadNow(t0.reading, i) == ReadNow(t.reading, i)
      ensures ReadAhead(t0.reading, i) == ReadAhead(t.reading, i)
      ensures t0.Wanted(i) == t.Wanted(i)
    {
      NewReaderReadsNothing(t.reading, t0.reading, q, i);
      SamePriority(t, t0, i);
    }
    PosChangedKeeps(t0, q, to);
  }

  lemma NewReaderReadsNothing(r0: Reading, r1: Reading, q: nat, i: nat)
    requires q !in r0.ranges && r0.registered <= r0.ranges.Keys
    requires r1.ranges == r0.ranges[q := Range(0, 0)] && r1.registered == r0.registered + {q}
    ensures ReadNow(r1, i) == ReadNow(r0, i) && ReadAhead(r1, i) == ReadAhead(r0, i)
  {
    if ReadNow(r0, i) {
      var p :| p in r0.registered && p in r0.ranges && r0.ranges[p].begin == i < r0.ranges[p].end;
      assert p in r1.registered && r1.ranges[p] == r0.ranges[p];
    }
    if ReadAhead(r0, i) {
      var p :| p in r0.registered && p in r0.ranges && r0.ranges[p].begin < i < r0.ranges[p].end;
      assert p in r1.registered && r1.ranges[p] == r0.ranges[p];
    }
  }

  lemma DeleteReaderKeeps(t: Torrent, q: nat)
    requires Inv(t)
    ensures Inv(DeleteReader(t, q))
  {
    var t0 := t.(reading := t.reading.(registered := t.reading.registered - {q}));
    assert Shaped(t0);
    UpdateReaderPiecesRight(t0);
    var t1 := UpdateReaderPieces(t0);
    assert SameOutside(t, t1, 0, |t.pieces|);
    RefreshRight(t, t1, 0, |t.pieces|);
  }

  // ------------------------------------------------------------- one piece

  /** The cache is right for all pieces but one. */
  ghost predicate PendingRightBut(t: Torrent, i: nat) {
    forall j: nat | j != i :: j in t.pending <==> t.Wanted(j)
  }

  /** Only facts about one piece changed. */
  ghost predicate OnlyAt(t: Torrent, t1: Torrent, i: nat) {
    && t1.pieceLength == t.pieceLength && t1.files == t.files && t1.reading == t.reading
    && |t1.pieces| == |t.pieces|
    && forall j: nat | j != i ::
         && (j < |t.pieces| ==> t1.pieces[j] == t.pieces[j])
         && (j in t1.completed <==> j in t.completed)
         && (j in t1.queued <==> j in t.queued)
         && (j in t1.pending <==> j in t.pending)
  }

  lemma OnlyAtKeeps(t: Torrent, t1: Torrent, i: nat)
    requires PendingRightBut(t, i) && OnlyAt(t, t1, i)
    ensures PendingRightBut(t1, i)
  {
    forall j: nat | j != i
      ensures j in t1.pending <==> t1.Wanted(j)
    {
      SamePriority(t, t1, j);
    }
  }

  /** A step that concerns one piece ends by refreshing it. */
  lemma RefreshRest(t: Torrent, i: nat)
    requires PendingRightBut(t, i)
    ensures PendingRight(UpdatePriority(t, i))
  {
    forall j: nat
      ensures j in UpdatePriority(t, i).pending <==> UpdatePriority(t, i).Wanted(j)
    {
      assert UpdatePriority(t, i).Wanted(j) == t.Wanted(j);
    }
  }

  /** The same with the number of hashers adjusted. */
  lemma RefreshRestAndCount(t: Torrent, i: nat, active: nat)
    requires PendingRightBut(t, i)
    ensures PendingRight(UpdatePriority(t, i).(active := active))
  {
    var t1 := UpdatePriority(t, i).(active := active);
    forall j: nat
      ensures j in t1.pending <==> t1.Wanted(j)
    {
      assert t1.Wanted(j) == t.Wanted(j);
    }
  }

  lemma UpdateCompletionOnlyAt(t: Torrent, i: nat, complete: bool, ok: bool)
    requires i < |t.pieces|
    ensures OnlyAt(t, UpdateCompletion(t, i, complete, ok), i)
    ensures var t1 := UpdateCompletion(t, i, complete, ok);
            && t1.pieces[i] == t.pieces[i].(storageOk := ok)
            && (i in t1.completed <==> complete)
            && t1.queued == t.queued && t1.marks == t.marks && t1.active == t.active && t1.closed == t.closed
  {
  }

  lemma UpdateCompletionKeeps(t: Torrent, i: nat, complete: bool, ok: bool)
    requires Inv(t) && i < |t.pieces|
    ensures Inv(UpdateCompletion(t, i, complete, ok))
  {
    var t1 := UpdateCompletion(t, i, complete, ok);
    UpdateCompletionOnlyAt(t, i, complete, ok);
    BeingHashedUpdate(t.pieces, i, t.pieces[i].(storageOk := ok));
    OnlyAtKeeps(t, t1, i);
    if (i in t.completed) == complete && t.pieces[i].storageOk == ok {
      assert t1.pieces == t.pieces;
      assert t1.completed == t.completed;
    } else {
      var t0 := SetPiece(t, i, t.pieces[i].(storageOk := ok))
                .(completed := if complete then t.completed + {i} else t.completed - {i});
      assert OnlyAt(t, t0, i);
      OnlyAtKeeps(t, t0, i);
      RefreshRest(t0, i);
    }
  }

  // ---------------------------------------------------------------- hashers

  lemma StartHasherKeeps(t: Torrent, i: nat)
    requires Inv(t) && i < |t.pieces| && !t.pieces[i].hashing && t.active < 2
    ensures Inv(StartHasher(t, i))
  {
    var p := t.pieces[i].(hashing := true);
    var t1 := SetPiece(t.(queued := t.queued - {i}), i, p);
    OnlyAtKeeps(t, t1, i);
    RefreshRestAndCount(t1, i, t.active + 1);
    BeingHashedUpdate(t.pieces, i, p);
  }

  /** Hashers are started while there is work, but never a third one. */
  lemma {:induction false} TryCreateMoreHashersKeeps(t: Torrent)
    requires Inv(t)
    ensures var t1 := TryCreateMoreHashers(t);
            && Inv(t1) && t1.closed == t.closed && t1.hasStorage == t.hasStorage
            && (t1.closed || !t1.hasStorage || t1.active == 2 || PieceToHash(t1).None?)
    decreases 2 - t.active
  {
    if t.closed || t.active >= 2 || !t.hasStorage || PieceToHash(t).None? {
    } else {
      StartHasherKeeps(t, PieceToHash(t).value);
      TryCreateMoreHashersKeeps(StartHasher(t, PieceToHash(t).value));
    }
  }

  lemma QueueCheckKeeps(t: Torrent, i: nat)
    requires Inv(t) && i < |t.pieces|
    ensures Inv(QueueCheck(t, i))
  {
    if i !in t.queued {
      var t1 := t.(queued := t.queued + {i});
      OnlyAtKeeps(t, t1, i);
      RefreshRest(t1, i);
      TryCreateMoreHashersKeeps(UpdatePriority(t1, i));
    }
  }

  /** What remains of the invariant just before a hasher refreshes its piece and ends. */
  ghost predicate Finishing(t: Torrent, i: nat) {
    && Shaped(t) && ReadersRight(t) && PendingRightBut(t, i)
    && i < |t.pieces|
    && t.active == BeingHashed(t.pieces) + |t.marks| + 1
    && t.active <= 2
    && (forall j | j in t.marks :: j < |t.pieces|)
  }

  lemma Finished(t: Torrent, i: nat, t1: Torrent)
    requires Finishing(t, i) && t1 == UpdatePriority(t, i).(active := t.active - 1)
    ensures Inv(t1)
  {
    RefreshRestAndCount(t, i, t.active - 1);
  }

  lemma FinishHasherKeeps(t: Torrent, i: nat)
    requires Finishing(t, i)
    ensures Inv(FinishHasher(t, i))
  {
    var t1 := UpdatePriority(t, i).(active := t.active - 1);
    Finished(t, i, t1);
    TryCreateMoreHashersKeeps(t1);
    assert FinishHasher(t, i) == TryCreateMoreHashers(t1);
  }

  /** A piece that is being hashed is not wanted, whatever becomes of it. */
  lemma HashDoneKeeps(t: Torrent, i: nat, passed: bool, complete: bool, ok: bool)
    requires Inv(t) && i < |t.pieces| && t.pieces[i].hashing && t.active > 0
    ensures Inv(HashDone(t, i, passed, complete, ok))
  {
    var t1 := SetPiece(t, i, t.pieces[i].(hashing := false));
    BeingHashedUpdate(t.pieces, i, t.pieces[i].(hashing := false));
    if t.closed {
      OnlyAtKeeps(t, t1, i);
      FinishHasherKeeps(t1, i);
    } else {
      var p := t1.pieces[i].(marking := true);
      var t2 := SetPiece(t1, i, p);
      BeingHashedUpdate(t1.pieces, i, p);
      OnlyAtKeeps(t, t2, i);
      if passed {
        assert !t.Wanted(i) && i !in t.pending;
        var t3 := t2.(marks := t2.marks + multiset{i});
        assert OnlyAt(t2, t3, i);
        OnlyAtKeeps(t2, t3, i);
      } else {
        HashFailedKeeps(t2, i, complete, ok);
      }
    }
  }

  /** From taking over the storage's word to the end of the hasher. */
  lemma HashFailedKeeps(t: Torrent, i: nat, complete: bool, ok: bool)
    requires Finishing(t, i)
    ensures var t1 := UpdateCompletion(t, i, complete, ok);
            Inv(FinishHasher(SetPiece(t1, i, t1.pieces[i].(marking := false)), i))
  {
    UpdateCompletionOnlyAt(t, i, complete, ok);
    var t1 := UpdateCompletion(t, i, complete, ok);
    var p := t1.pieces[i].(marking := false);
    var t2 := SetPiece(t1, i, p);
    assert OnlyAt(t, t2, i);
    OnlyAtKeeps(t, t2, i);
    assert t2.pieces == t.pieces[i := p];
    BeingHashedUpdate(t.pieces, i, p);
    FinishHasherKeeps(t2, i);
  }

  /** A hasher comes back from marking, possibly after its piece was queued or hashed again. */
  lemma MarkDoneKeeps(t: Torrent, i: nat, complete: bool, ok: bool)
    requires Inv(t) && i in t.marks && t.active > 0
    ensures i < |t.pieces| && Inv(MarkDone(t, i, complete, ok))
  {
    var t1 := t.(marks := t.marks - multiset{i});
    assert OnlyAt(t, t1, i);
    OnlyAtKeeps(t, t1, i);
    if t.closed {
      var p := t1.pieces[i].(marking := false);
      var t2 := SetPiece(t1, i, p);
      OnlyAtKeeps(t1, t2, i);
      BeingHashedUpdate(t1.pieces, i, p);
      FinishHasherKeeps(t2, i);
    } else {
      HashFailedKeeps(t1, i, complete, ok);
    }
  }

  // ------------------------------------------------------------- whole runs

  datatype Event =
    | FilePriority(f: nat, prio: nat)
    | PiecePriority(i: nat, prio: nat)
    | Download(begin: nat, end: nat)
    | Cancel(begin: nat, end: nat)
    | ReaderAdded(r: nat, to: Range)
    | ReaderMoved(r: nat, to: Range)
    | ReaderDeleted(r: nat)
    | CheckQueued(i: nat)
    | CompletionRead(i: nat, complete: bool, ok: bool)
    | Hashed(i: nat, passed: bool, complete: bool, ok: bool)
    | Marked(i: nat, complete: bool, ok: bool)
    | TorrentClosed

  predicate Enabled(t: Torrent, e: Event) {
    match e
    case FilePriority(f, _) => f < |t.files|
    case PiecePriority(i, _) => i < |t.pieces|
    case Download(_, end) => end <= |t.pieces|
    case Cancel(_, end) => end <= |t.pieces|
    case ReaderAdded(r, to) => r !in t.reading.ranges && to.begin <= to.end <= |t.pieces|
    case ReaderMoved(r, to) => r in t.reading.ranges && to.begin <= to.end <= |t.pieces|
    case ReaderDeleted(_) => true
    case CheckQueued(i) => i < |t.pieces|
    case CompletionRead(i, _, _) => i < |t.pieces|
    case Hashed(i, _, _, _) => i < |t.pieces| && t.pieces[i].hashing && t.active > 0
    case Marked(i, _, _) => i in t.marks && i < |t.pieces| && t.active > 0
    case TorrentClosed => true
  }

  function Step(t: Torrent, e: Event): Torrent
    requires Enabled(t, e)
  {
    match e
    case FilePriority(f, prio) => SetFilePriority(t, f, prio)
    case PiecePriority(i, prio) => SetPiecePriority(t, i, prio)
    case Download(begin, end) => DownloadPieces(t, begin, end)
    case Cancel(begin, end) => CancelPieces(t, begin, end)
    case ReaderAdded(r, to) => AddReader(t, r, to)
    case ReaderMoved(r, to) => PosChanged(t, r, to)
    case ReaderDeleted(r) => DeleteReader(t, r)
    case CheckQueued(i) => QueueCheck(t, i)
    case CompletionRead(i, complete, ok) => UpdateCompletion(t, i, complete, ok)
    case Hashed(i, passed, complete, ok) => HashDone(t, i, passed, complete, ok)
    case Marked(i, complete, ok) => MarkDone(t, i, complete, ok)
    case TorrentClosed => t.(closed := true)
  }

  /** A hasher that is due to report is counted. */
  lemma HasherCounts(t: Torrent, i: nat)
    requires HashersRight(t)
    ensures i < |t.pieces| && t.pieces[i].hashing ==> t.active > 0
    ensures i in t.marks ==> t.active > 0 && i < |t.pieces|
  {
    if i < |t.pieces| && t.pieces[i].hashing {
      BeingHashedUpdate(t.pieces, i, t.pieces[i].(hashing := false));
    }
    if i in t.marks {
      assert |t.marks| == |t.marks - multiset{i}| + 1;
    }
  }

  lemma StepKeeps(t: Torrent, e: Event)
    requires Inv(t) && Enabled(t, e)
    ensures Inv(Step(t, e))
  {
    match e
    case FilePriority(f, prio) => SetFilePriorityKeeps(t, f, prio);
    case PiecePriority(i, prio) => PieceChangeKeeps(t, i, t.pieces[i].(priority := prio));
    case Download(begin, end) => DownloadPiecesKeeps(t, begin, end);
    case Cancel(begin, end) => CancelPiecesKeeps(t, begin, end);
    case ReaderAdded(r, to) => AddReaderKeeps(t, r, to);
    case ReaderMoved(r, to) => PosChangedKeeps(t, r, to);
    case ReaderDeleted(r) => DeleteReaderKeeps(t, r);
    case CheckQueued(i) => QueueCheckKeeps(t, i);
    case CompletionRead(i, complete, ok) => UpdateCompletionKeeps(t, i, complete, ok);
    case Hashed(i, passed, complete, ok) => HashDoneKeeps(t, i, passed, complete, ok);
    case Marked(i, complete, ok) => MarkDoneKeeps(t, i, complete, ok);
    case TorrentClosed =>
      assert forall i: nat :: t.(closed := true).Wanted(i) == t.Wanted(i);
  }

  predicate Runnable(t: Torrent, es: seq<Event>)
    decreases es
  {
    es == [] || (Enabled(t, es[0]) && Runnable(Step(t, es[0]), es[1..]))
  }

  function Run(t: Torrent, es: seq<Event>): Torrent
    requires Runnable(t, es)
    decreases es
  {
    if es == [] then t else Run(Step(t, es[0]), es[1..])
  }

  /** Whenever the lock is free: the cache is exact, at most two hashers run, and nothing wanted is being hashed. */
  lemma {:induction false} RunKeeps(t: Torrent, es: seq<Event>)
    requires Inv(t) && Runnable(t, es)
    ensures var t1 := Run(t, es);
            && Inv(t1) && t1.active <= 2
            && forall i | i in t1.pending :: i < |t1.pieces| && !t1.pieces[i].hashing && i !in t1.queued
    decreases es
  {
    if es != [] {
      StepKeeps(t, es[0]);
      RunKeeps(Step(t, es[0]), es[1..]);
    } else {
      forall i | i in t.pending
        ensures i < |t.pieces| && !t.pieces[i].hashing && i !in t.queued
      {
        PendingMeaning(t, i);
      }
    }
  }

  // ---------------------------------------------------- what steps do to pieces

  /** A range is raised, each piece to at least normal priority, and nothing else changes but the cache. */
  lemma {:induction false} DownloadPiecesDoes(t: Torrent, begin: nat, end: nat)
    requires end <= |t.pieces|
    ensures var t1 := DownloadPieces(t, begin, end);
            && t1 == t.(pieces := t1.pieces, pending := t1.pending) && |t1.pieces| == |t.pieces|
            && forall i | 0 <= i < |t.pieces| :: t1.pieces[i] ==
                 if begin <= i < end then t.pieces[i].(priority := Max(t.pieces[i].priority, NORMAL)) else t.pieces[i]
    decreases end - begin
  {
    if begin >= end {
    } else {
      var t1 := if t.pieces[begin].priority < NORMAL then SetPiecePriority(t, begin, NORMAL) else t;
      DownloadPiecesDoes(t1, begin + 1, end);
    }
  }

  lemma {:induction false} CancelPiecesDoes(t: Torrent, begin: nat, end: nat)
    requires end <= |t.pieces|
    ensures var t1 := CancelPieces(t, begin, end);
            && t1 == t.(pieces := t1.pieces, pending := t1.pending) && |t1.pieces| == |t.pieces|
            && forall i | 0 <= i < |t.pieces| :: t1.pieces[i] ==
                 if begin <= i < end then t.pieces[i].(priority := NONE) else t.pieces[i]
    decreases end - begin
  {
    if begin >= end {
    } else {
      var t1 := if t.pieces[begin].priority != NONE then SetPiecePriority(t, begin, NONE) else t;
      CancelPiecesDoes(t1, begin + 1, end);
    }
  }

  /** The piece waits for its check, or is being checked. */
  predicate CheckDue(t: Torrent, i: nat) {
    i < |t.pieces| && (i in t.queued || t.pieces[i].hashing)
  }

  lemma {:induction false} HashersTake(t: Torrent, i: nat)
    ensures |TryCreateMoreHashers(t).pieces| == |t.pieces|
    ensures CheckDue(t, i) ==> CheckDue(TryCreateMoreHashers(t), i)
    decreases 2 - t.active
  {
    if t.closed || t.active >= 2 || !t.hasStorage || PieceToHash(t).None? {
    } else {
      HashersTake(StartHasher(t, PieceToHash(t).value), i);
    }
  }

  lemma FinishTakes(t: Torrent, k: nat, i: nat)
    requires k < |t.pieces| && t.active > 0 && CheckDue(t, i)
    ensures CheckDue(FinishHasher(t, k), i)
  {
    HashersTake(UpdatePriority(t, k).(active := t.active - 1), i);
  }

  ghost predicate SameChecks(t: Torrent, t1: Torrent) {
    t1.pieces == t.pieces && t1.queued == t.queued
  }

  lemma PosChangedSame(t: Torrent, q: nat, to: Range)
    requires q in t.reading.ranges
    ensures SameChecks(t, PosChanged(t, q, to))
  {
    var from := t.reading.ranges[q];
    if to != from {
      var t1 := UpdateReaderPieces(t.(reading := t.reading.(ranges := t.reading.ranges[q := to])));
      var (l, h) := if from.begin > to.begin then (to, from) else (from, to);
      UpdatePrioritiesDoes(t1, l.begin, l.end);
      UpdatePrioritiesDoes(UpdatePriorities(t1, l.begin, l.end), h.begin, h.end);
      UpdatePrioritiesDoes(t1, l.begin, if h.end > l.end then h.end else l.end);
    }
  }

  lemma HashDoneTakes(t: Torrent, k: nat, passed: bool, complete: bool, ok: bool, i: nat)
    requires k < |t.pieces| && t.active > 0 && CheckDue(t, i) && (i == k ==> i in t.queued)
    ensures CheckDue(HashDone(t, k, passed, complete, ok), i)
  {
    var t1 := SetPiece(t, k, t.pieces[k].(hashing := false));
    if t.closed {
      FinishTakes(t1, k, i);
    } else if !passed {
      var t2 := SetPiece(t1, k, t1.pieces[k].(marking := true));
      var t3 := UpdateCompletion(t2, k, complete, ok);
      FinishTakes(SetPiece(t3, k, t3.pieces[k].(marking := false)), k, i);
    }
  }

  lemma MarkDoneTakes(t: Torrent, k: nat, complete: bool, ok: bool, i: nat)
    requires k < |t.pieces| && t.active > 0 && CheckDue(t, i)
    ensures CheckDue(MarkDone(t, k, complete, ok), i)
  {
    var t1 := t.(marks := t.marks - multiset{k});
    var t2 := if t.closed then t1 else UpdateCompletion(t1, k, complete, ok);
    FinishTakes(SetPiece(t2, k, t2.pieces[k].(marking := false)), k, i);
  }

  lemma FilePrioritySame(t: Torrent, f: nat, prio: nat)
    requires f < |t.files|
    ensures SameChecks(t, SetFilePriority(t, f, prio))
  {
    var t1 := t.(files := t.files[f := t.files[f].(prio := prio)]);
    UpdatePrioritiesDoes(t1, BeginPieceIndex(t.files[f], t.pieceLength), EndPieceIndex(t.files[f], t.pieceLength));
  }

  lemma ReaderAddedSame(t: Torrent, q: nat, to: Range)
    ensures SameChecks(t, AddReader(t, q, to))
  {
    var reading := t.reading.(registered := t.reading.registered + {q}, ranges := t.reading.ranges[q := Range(0, 0)]);
    PosChangedSame(t.(reading := reading), q, to);
  }

  lemma ReaderDeletedSame(t: Torrent, q: nat)
    ensures SameChecks(t, DeleteReader(t, q))
  {
    var t1 := UpdateReaderPieces(t.(reading := t.reading.(registered := t.reading.registered - {q})));
    UpdatePrioritiesDoes(t1, 0, |t1.pieces|);
  }

  /** No check that is due gets lost: it stays due until its own hasher reports. */
  lemma ChecksStay(t: Torrent, e: Event, i: nat)
    requires Enabled(t, e) && CheckDue(t, i) && !(e.Hashed? && e.i == i && i !in t.queued)
    ensures CheckDue(Step(t, e), i)
  {
    match e
    case FilePriority(f, prio) => FilePrioritySame(t, f, prio);
    case PiecePriority(k, prio) =>
    case Download(begin, end) => DownloadPiecesDoes(t, begin, end);
    case Cancel(begin, end) => CancelPiecesDoes(t, begin, end);
    case ReaderAdded(q, to) => ReaderAddedSame(t, q, to);
    case ReaderMoved(q, to) => PosChangedSame(t, q, to);
    case ReaderDeleted(q) => ReaderDeletedSame(t, q);
    case CheckQueued(k) => HashersTake(UpdatePriority(t.(queued := t.queued + {k}), k), i);
    case CompletionRead(k, complete, ok) =>
    case Hashed(k, passed, complete, ok) => HashDoneTakes(t, k, passed, complete, ok, i);
    case Marked(k, complete, ok) => MarkDoneTakes(t, k, complete, ok, i);
    case TorrentClosed =>
  }

  /** Queueing a check makes it due. */
  lemma QueuedIsDue(t: Torrent, i: nat)
    requires i < |t.pieces|
    ensures CheckDue(QueueCheck(t, i), i)
  {
    HashersTake(UpdatePriority(t.(queued := t.queued + {i}), i), i);
  }

  /** A torrent whose info was just obtained: nothing wanted, nothing complete, nothing hashed. */
  lemma FreshInv(pieceLength: nat, files: seq<File>, pieces: seq<Piece>, hasStorage: bool)
    requires pieceLength > 0 && Laid(files) && |pieces| == CeilDiv(Total(files), pieceLength)
    requires forall f | f in files :: f.prio == NONE
    requires forall p | p in pieces :: p == Piece(NONE, false, false, false)
    ensures Inv(Torrent(pieceLength, files, pieces, {}, {}, {}, Reading(map[], {}, {}, {}), multiset{}, 0, hasStorage, false))
  {
    var t := Torrent(pieceLength, files, pieces, {}, {}, {}, Reading(map[], {}, {}, {}), multiset{}, 0, hasStorage, false);
    forall i: nat
      ensures !t.Wanted(i)
    {
      if i < |pieces| {
        NoPrio(t.FilesOf(i));
        assert pieces[i] in pieces;
      }
    }
    NoneHashed(pieces);
  }

  lemma {:induction false} NoPrio(files: seq<File>)
    requires forall f | f in files :: f.prio == NONE
    ensures HighestPrio(files) == NONE
  {
    if files == [] {
    } else {
      NoPrio(files[1..]);
    }
  }

  lemma {:induction false} NoneHashed(pieces: seq<Piece>)
    requires forall p | p in pieces :: !p.hashing
    ensures BeingHashed(pieces) == 0
  {
    if pieces == [] {
    } else {
      NoneHashed(pieces[1..]);
    }
  }
}
