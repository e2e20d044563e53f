/**
 * What the steps of PieceRuns record: who reports a piece complete, when it is being marked or hashed, and
 * what priorities, files and readers become.  Over a whole run the last report on a piece decides.
 */
module PieceRecords {
  import opened Common
  import opened FileRanges
  import opened PieceLifecycle
  import opened PieceRuns

  // ------------------------------------------------------------- single changes

  /** Starting hashers takes queued pieces off the queue, and touches nothing else but the cache. */
  ghost predicate OnlyHashers(t: Torrent, t1: Torrent) {
    && t1 == t.(pieces := t1.pieces, queued := t1.queued, pending := t1.pending, active := t1.active)
    && |t1.pieces| == |t.pieces| && t1.queued <= t.queued
    && forall j | 0 <= j < |t.pieces| :: PieceLeft(t.pieces[j], j in t.queued, t1.pieces[j], j in t1.queued)
  }

  /** A piece left the queue if and only if its hasher was started. */
  predicate PieceLeft(p: Piece, queued: bool, p1: Piece, queued1: bool) {
    && p1 == p.(hashing := p1.hashing) && (p.hashing ==> p1.hashing)
    && (p1.hashing && !p.hashing <==> queued && !queued1)
  }

  lemma OnlyHashersTwice(t: Torrent, t1: Torrent, t2: Torrent)
    requires OnlyHashers(t, t1) && OnlyHashers(t1, t2)
    ensures OnlyHashers(t, t2)
  {
    forall j | 0 <= j < |t.pieces|
      ensures PieceLeft(t.pieces[j], j in t.queued, t2.pieces[j], j in t2.queued)
    {
      assert PieceLeft(t.pieces[j], j in t.queued, t1.pieces[j], j in t1.queued);
      assert PieceLeft(t1.pieces[j], j in t1.queued, t2.pieces[j], j in t2.queued);
    }
  }

  lemma {:induction false} HashersOnly(t: Torrent)
    ensures OnlyHashers(t, TryCreateMoreHashers(t))
    decreases 2 - t.active
  {
    if t.closed || t.active >= 2 || !t.hasStorage || PieceToHash(t).None? {
    } else {
      var t1 := StartHasher(t, PieceToHash(t).value);
      HashersOnly(t1);
      OnlyHashersTwice(t, t1, TryCreateMoreHashers(t1));
    }
  }

  lemma FinishOnly(t: Torrent, i: nat)
    requires i < |t.pieces| && t.active > 0
    ensures OnlyHashers(t, FinishHasher(t, i))
  {
    HashersOnly(UpdatePriority(t, i).(active := t.active - 1));
  }

  // ---------------------------------------------------------------- completion

  /** The step tells whether piece `j` is complete. */
  predicate Reports(t: Torrent, e: Event, j: nat) {
    || (e.CompletionRead? && e.i == j)
    || (e.Marked? && e.i == j && !t.closed)
    || (e.Hashed? && e.i == j && !e.passed && !t.closed)
  }

  /** A piece is recorded as the step reports it, and nothing else changes its record. */
  ghost predicate Recorded(t: Torrent, e: Event, t1: Torrent, j: nat) {
    && |t1.pieces| == |t.pieces|
    && (j in t1.completed <==> if Reports(t, e, j) then e.complete else j in t.completed)
    && (j < |t.pieces| ==> t1.pieces[j].storageOk == if Reports(t, e, j) then e.ok else t.pieces[j].storageOk)
  }

  lemma CompletionRecords(t: Torrent, i: nat, complete: bool, ok: bool, j: nat)
    requires i < |t.pieces|
    ensures var t1 := UpdateCompletion(t, i, complete, ok);
            && t1 == t.(completed := t1.completed, pieces := t1.pieces, pending := t1.pending)
            && t1.pieces == t.pieces[i := t.pieces[i].(storageOk := ok)]
            && (j in t1.completed <==> if j == i then complete else j in t.completed)
  {
  }

  lemma HashRecords(t: Torrent, i: nat, passed: bool, complete: bool, ok: bool, j: nat)
    requires Enabled(t, Hashed(i, passed, complete, ok))
    ensures Recorded(t, Hashed(i, passed, complete, ok), HashDone(t, i, passed, complete, ok), j)
  {
    var t1 := SetPiece(t, i, t.pieces[i].(hashing := false));
    if t.closed {
      FinishOnly(t1, i);
    } else if !passed {
      var t2 := SetPiece(t1, i, t1.pieces[i].(marking := true));
      CompletionRecords(t2, i, complete, ok, j);
      var t3 := UpdateCompletion(t2, i, complete, ok);
      FinishOnly(SetPiece(t3, i, t3.pieces[i].(marking := false)), i);
    }
  }

  lemma MarkRecords(t: Torrent, i: nat, complete: bool, ok: bool, j: nat)
    requires Enabled(t, Marked(i, complete, ok))
    ensures Recorded(t, Marked(i, complete, ok), MarkDone(t, i, complete, ok), j)
  {
    var t1 := t.(marks := t.marks - multiset{i});
    CompletionRecords(t1, i, complete, ok, j);
    var t2 := if t.closed then t1 else UpdateCompletion(t1, i, complete, ok);
    FinishOnly(SetPiece(t2, i, t2.pieces[i].(marking := false)), i);
  }

  /** Steps that only refresh the cache and the readers. */
  lemma RefreshSame(t: Torrent, begin: nat, end: nat)
    ensures UpdatePriorities(t, begin, end) == t.(pending := UpdatePriorities(t, begin, end).pending)
  {
    UpdatePrioritiesDoes(t, begin, end);
  }

  /** Moving a reader sets its range, and leaves everything but the cache and the read pieces alone. */
  lemma PosChangedSets(t: Torrent, q: nat, to: Range)
    requires q in t.reading.ranges
    ensures var t1 := PosChanged(t, q, to);
            && t1 == t.(pending := t1.pending, reading := t1.reading)
            && t1.reading.ranges == t.reading.ranges[q := to] && t1.reading.registered == t.reading.registered
  {
    var from := t.reading.ranges[q];
    if to == from {
      assert t.reading.ranges[q := to] == t.reading.ranges;
    } else {
      var t1 := UpdateReaderPieces(t.(reading := t.reading.(ranges := t.reading.ranges[q := to])));
      var (l, h) := if from.begin > to.begin then (to, from) else (from, to);
      RefreshSame(t1, l.begin, l.end);
      RefreshSame(UpdatePriorities(t1, l.begin, l.end), h.begin, h.end);
      RefreshSame(t1, l.begin, if h.end > l.end then h.end else l.end);
    }
  }

  lemma AddReaderSets(t: Torrent, q: nat, to: Range)
    ensures var t1 := AddReader(t, q, to);
            && t1 == t.(pending := t1.pending, reading := t1.reading)
            && t1.reading.ranges == t.reading.ranges[q := to]
            && t1.reading.registered == t.reading.registered + {q}
  {
    var reading := t.reading.(registered := t.reading.registered + {q}, ranges := t.reading.ranges[q := Range(0, 0)]);
    PosChangedSets(t.(reading := reading), q, to);
    assert reading.ranges[q := to] == t.reading.ranges[q := to];
  }

  lemma DeleteReaderSets(t: Torrent, q: nat)
    ensures var t1 := DeleteReader(t, q);
            && t1 == t.(pending := t1.pending, reading := t1.reading)
            && t1.reading.ranges == t.reading.ranges && t1.reading.registered == t.reading.registered - {q}
  {
    var t1 := UpdateReaderPieces(t.(reading := t.reading.(registered := t.reading.registered - {q})));
    RefreshSame(t1, 0, |t1.pieces|);
  }

  lemma FilePrioritySets(t: Torrent, f: nat, prio: nat)
    requires f < |t.files|
    ensures var t1 := SetFilePriority(t, f, prio);
            t1 == t.(pending := t1.pending, files := t.files[f := t.files[f].(prio := prio)])
  {
    if t.files[f].prio == prio {
      assert t.files[f := t.files[f].(prio := prio)] == t.files;
    } else {
      var t1 := t.(files := t.files[f := t.files[f].(prio := prio)]);
      RefreshSame(t1, BeginPieceIndex(t.files[f], t.pieceLength), EndPieceIndex(t.files[f], t.pieceLength));
    }
  }

  /** A step of the user or of a reader, and queueing a check, reports nothing. */
  lemma QuietRecords(t: Torrent, e: Event, j: nat)
    requires Enabled(t, e) && !e.CompletionRead? && !e.Hashed? && !e.Marked?
    ensures Recorded(t, e, Step(t, e), j)
  {
    match e
    case FilePriority(f, prio) => FilePrioritySets(t, f, prio);
    case PiecePriority(i, prio) =>
    case Download(begin, end) => DownloadPiecesDoes(t, begin, end);
    case Cancel(begin, end) => CancelPiecesDoes(t, begin, end);
    case ReaderAdded(q, to) => AddReaderSets(t, q, to);
    case ReaderMoved(q, to) => PosChangedSets(t, q, to);
    case ReaderDeleted(q) => DeleteReaderSets(t, q);
    case CheckQueued(i) => HashersOnly(UpdatePriority(t.(queued := t.queued + {i}), i));
    case TorrentClosed =>
  }

  /** The record of a piece changes only by a report on it, and then to what is reported. */
  lemma StepRecords(t: Torrent, e: Event, j: nat)
    requires Enabled(t, e)
    ensures Recorded(t, e, Step(t, e), j)
  {
    match e
    case CompletionRead(i, complete, ok) => CompletionRecords(t, i, complete, ok, j);
    case Hashed(i, passed, complete, ok) => HashRecords(t, i, passed, complete, ok, j);
    case Marked(i, complete, ok) => MarkRecords(t, i, complete, ok, j);
    case _ => QuietRecords(t, e, j);
  }

  /** The last report on piece `j` in a run, or what was recorded before. */
  ghost function LastWord(t: Torrent, es: seq<Event>, j: nat, before: bool): bool
    requires Runnable(t, es)
    decreases es
  {
    if es == [] then before
    else LastWord(Step(t, es[0]), es[1..], j, if Reports(t, es[0], j) then es[0].complete else before)
  }

  /** After every run a piece is complete if and only if the last report on it says so. */
  lemma {:induction false} RunRecords(t: Torrent, es: seq<Event>, j: nat)
    requires Runnable(t, es)
    ensures j in Run(t, es).completed <==> LastWord(t, es, j, j in t.completed)
    decreases es
  {
    if es == [] {
    } else {
      StepRecords(t, es[0], j);
      RunRecords(Step(t, es[0]), es[1..], j);
    }
  }

  // ------------------------------------------------------------ marking, hashing

  /** The piece is being marked from the time its hash passed until its hasher is back. */
  ghost predicate MarkingRight(t: Torrent, e: Event, t1: Torrent, j: nat)
    requires j < |t.pieces| == |t1.pieces|
  {
    && (t1.pieces[j].marking <==> if e.Hashed? && e.i == j && !t.closed then e.passed
                                  else if e.Marked? && e.i == j then false
                                  else t.pieces[j].marking)
    && t1.marks == (if e.Hashed? && e.passed && !t.closed then t.marks + multiset{e.i}
                    else if e.Marked? then t.marks - multiset{e.i}
                    else t.marks)
  }

  /** A hash is over when its hasher reports; one starts only for a queued piece, which then leaves the queue. */
  ghost predicate HashingRight(t: Torrent, e: Event, t1: Torrent, j: nat)
    requires j < |t.pieces| == |t1.pieces|
  {
    var was := t.pieces[j].hashing && !(e.Hashed? && e.i == j);
    var asked := j in t.queued || e == CheckQueued(j);
    && (was ==> t1.pieces[j].hashing) && (j in t1.queued ==> asked)
    && (t1.pieces[j].hashing && !was <==> asked && j !in t1.queued)
  }

  lemma HashDoneMarks(t: Torrent, i: nat, passed: bool, complete: bool, ok: bool, j: nat)
    requires Enabled(t, Hashed(i, passed, complete, ok)) && j < |t.pieces|
    ensures var e, t1 := Hashed(i, passed, complete, ok), HashDone(t, i, passed, complete, ok);
            |t1.pieces| == |t.pieces| && MarkingRight(t, e, t1, j) && HashingRight(t, e, t1, j)
  {
    var t1 := SetPiece(t, i, t.pieces[i].(hashing := false));
    if t.closed {
      FinishOnly(t1, i);
      assert PieceLeft(t1.pieces[j], j in t1.queued, FinishHasher(t1, i).pieces[j], j in FinishHasher(t1, i).queued);
    } else if !passed {
      var t2 := SetPiece(t1, i, t1.pieces[i].(marking := true));
      CompletionRecords(t2, i, complete, ok, j);
      var t3 := UpdateCompletion(t2, i, complete, ok);
      var t4 := SetPiece(t3, i, t3.pieces[i].(marking := false));
      FinishOnly(t4, i);
      assert PieceLeft(t4.pieces[j], j in t4.queued, FinishHasher(t4, i).pieces[j], j in FinishHasher(t4, i).queued);
    }
  }

  lemma MarkDoneMarks(t: Torrent, i: nat, complete: bool, ok: bool, j: nat)
    requires Enabled(t, Marked(i, complete, ok)) && j < |t.pieces|
    ensures var e, t1 := Marked(i, complete, ok), MarkDone(t, i, complete, ok);
            |t1.pieces| == |t.pieces| && MarkingRight(t, e, t1, j) && HashingRight(t, e, t1, j)
  {
    var t1 := t.(marks := t.marks - multiset{i});
    CompletionRecords(t1, i, complete, ok, j);
    var t2 := if t.closed then t1 else UpdateCompletion(t1, i, complete, ok);
    var t3 := SetPiece(t2, i, t2.pieces[i].(marking := false));
    FinishOnly(t3, i);
    assert PieceLeft(t3.pieces[j], j in t3.queued, FinishHasher(t3, i).pieces[j], j in FinishHasher(t3, i).queued);
  }

  lemma CheckQueuedMarks(t: Torrent, i: nat, j: nat)
    requires i < |t.pieces| && j < |t.pieces|
    ensures var e, t1 := CheckQueued(i), QueueCheck(t, i);
            |t1.pieces| == |t.pieces| && MarkingRight(t, e, t1, j) && HashingRight(t, e, t1, j)
  {
    if i !in t.queued {
      var t1 := UpdatePriority(t.(queued := t.queued + {i}), i);
      HashersOnly(t1);
      assert PieceLeft(t1.pieces[j], j in t1.queued, QueueCheck(t, i).pieces[j], j in QueueCheck(t, i).queued);
    }
  }

  lemma QuietMarks(t: Torrent, e: Event, j: nat)
    requires Enabled(t, e) && j < |t.pieces| && !e.CheckQueued? && !e.Hashed? && !e.Marked?
    ensures |Step(t, e).pieces| == |t.pieces| && MarkingRight(t, e, Step(t, e), j) && HashingRight(t, e, Step(t, e), j)
  {
    match e
    case FilePriority(f, prio) => FilePrioritySets(t, f, prio);
    case PiecePriority(i, prio) =>
    case Download(begin, end) => DownloadPiecesDoes(t, begin, end);
    case Cancel(begin, end) => CancelPiecesDoes(t, begin, end);
    case ReaderAdded(q, to) => AddReaderSets(t, q, to);
    case ReaderMoved(q, to) => PosChangedSets(t, q, to);
    case ReaderDeleted(q) => DeleteReaderSets(t, q);
    case CompletionRead(i, complete, ok) => CompletionRecords(t, i, complete, ok, j);
    case TorrentClosed =>
  }

  lemma StepMarks(t: Torrent, e: Event, j: nat)
    requires Enabled(t, e) && j < |t.pieces|
    ensures |Step(t, e).pieces| == |t.pieces| && MarkingRight(t, e, Step(t, e), j) && HashingRight(t, e, Step(t, e), j)
  {
    match e
    case CheckQueued(i) => CheckQueuedMarks(t, i, j);
    case Hashed(i, passed, complete, ok) => HashDoneMarks(t, i, passed, complete, ok, j);
    case Marked(i, complete, ok) => MarkDoneMarks(t, i, complete, ok, j);
    case _ => QuietMarks(t, e, j);
  }

  // ------------------------------------------------------------ no idle hasher

  /** While a hasher could be started, no queued piece waits for one, unless it is still being marked. */
  ghost predicate Busy(t: Torrent) {
    t.closed || !t.hasStorage || t.active >= 2 ||
    forall j | 0 <= j < |t.pieces| :: j in t.queued && !t.pieces[j].hashing ==> j in t.marks
  }

  lemma {:induction false} HashersBusy(t: Torrent)
    ensures Busy(TryCreateMoreHashers(t))
    decreases 2 - t.active
  {
    if t.closed || t.active >= 2 || !t.hasStorage || PieceToHash(t).None? {
    } else {
      HashersBusy(StartHasher(t, PieceToHash(t).value));
    }
  }

  lemma FinishBusy(t: Torrent, i: nat)
    requires i < |t.pieces| && t.active > 0
    ensures Busy(FinishHasher(t, i))
  {
    HashersBusy(UpdatePriority(t, i).(active := t.active - 1));
  }

  lemma HashDoneBusy(t: Torrent, i: nat, passed: bool, complete: bool, ok: bool)
    requires Enabled(t, Hashed(i, passed, complete, ok)) && Busy(t)
    ensures Busy(HashDone(t, i, passed, complete, ok))
  {
    var t1 := SetPiece(t, i, t.pieces[i].(hashing := false));
    if t.closed {
      FinishBusy(t1, i);
    } else if !passed {
      var t3 := UpdateCompletion(SetPiece(t1, i, t1.pieces[i].(marking := true)), i, complete, ok);
      FinishBusy(SetPiece(t3, i, t3.pieces[i].(marking := false)), i);
    }
  }

  lemma MarkDoneBusy(t: Torrent, i: nat, complete: bool, ok: bool)
    requires Enabled(t, Marked(i, complete, ok))
    ensures Busy(MarkDone(t, i, complete, ok))
  {
    var t1 := t.(marks := t.marks - multiset{i});
    var t2 := if t.closed then t1 else UpdateCompletion(t1, i, complete, ok);
    FinishBusy(SetPiece(t2, i, t2.pieces[i].(marking := false)), i);
  }

  lemma QuietBusy(t: Torrent, e: Event)
    requires Enabled(t, e) && Busy(t) && !e.CheckQueued? && !e.Hashed? && !e.Marked?
    ensures Busy(Step(t, e))
  {
    match e
    case FilePriority(f, prio) => FilePrioritySets(t, f, prio);
    case PiecePriority(i, prio) =>
    case Download(begin, end) => DownloadPiecesDoes(t, begin, end);
    case Cancel(begin, end) => CancelPiecesDoes(t, begin, end);
    case ReaderAdded(q, to) => AddReaderSets(t, q, to);
    case ReaderMoved(q, to) => PosChangedSets(t, q, to);
    case ReaderDeleted(q) => DeleteReaderSets(t, q);
    case CompletionRead(i, complete, ok) => CompletionRecords(t, i, complete, ok, i);
    case TorrentClosed =>
  }

  lemma StepBusy(t: Torrent, e: Event)
    requires Enabled(t, e) && Busy(t)
    ensures Busy(Step(t, e))
  {
    match e
    case CheckQueued(i) =>
      if i !in t.queued {
        HashersBusy(UpdatePriority(t.(queued := t.queued + {i}), i));
      }
    case Hashed(i, passed, complete, ok) => HashDoneBusy(t, i, passed, complete, ok);
    case Marked(i, complete, ok) => MarkDoneBusy(t, i, complete, ok);
    case _ => QuietBusy(t, e);
  }

  /** Over every run no check waits for a hasher that could be started, but for a piece that is being marked. */
  lemma {:induction false} RunBusy(t: Torrent, es: seq<Event>)
    requires Runnable(t, es) && Busy(t)
    ensures Busy(Run(t, es))
    decreases es
  {
    if es == [] {
    } else {
      StepBusy(t, es[0]);
      RunBusy(Step(t, es[0]), es[1..]);
    }
  }

  // -------------------------------------------- priorities, files and readers

  /** What the user asked of a piece changes only by the user. */
  function PriorityAfter(t: Torrent, e: Event, j: nat): nat
    requires j < |t.pieces|
  {
    match e
    case PiecePriority(i, prio) => if i == j then prio else t.pieces[j].priority
    case Download(begin, end) => if begin <= j < end then Max(t.pieces[j].priority, NORMAL) else t.pieces[j].priority
    case Cancel(begin, end) => if begin <= j < end then NONE else t.pieces[j].priority
    case _ => t.pieces[j].priority
  }

  function FilesAfter(t: Torrent, e: Event): seq<File>
    requires Enabled(t, e)
  {
    if e.FilePriority? then t.files[e.f := t.files[e.f].(prio := e.prio)] else t.files
  }

  function RangesAfter(t: Torrent, e: Event): map<nat, Range> {
    if e.ReaderAdded? || e.ReaderMoved? then t.reading.ranges[e.r := e.to] else t.reading.ranges
  }

  function RegisteredAfter(t: Torrent, e: Event): set<nat> {
    if e.ReaderAdded? then t.reading.registered + {e.r}
    else if e.ReaderDeleted? then t.reading.registered - {e.r}
    else t.reading.registered
  }

  ghost predicate WishesRight(t: Torrent, e: Event, t1: Torrent, j: nat)
    requires Enabled(t, e)
  {
    && |t1.pieces| == |t.pieces| && (j < |t.pieces| ==> t1.pieces[j].priority == PriorityAfter(t, e, j))
    && t1.files == FilesAfter(t, e)
    && t1.reading.ranges == RangesAfter(t, e) && t1.reading.registered == RegisteredAfter(t, e)
    && t1.closed == (t.closed || e.TorrentClosed?) && t1.hasStorage == t.hasStorage
  }

  lemma HashDoneWishes(t: Torrent, i: nat, passed: bool, complete: bool, ok: bool, j: nat)
    requires Enabled(t, Hashed(i, passed, complete, ok))
    ensures WishesRight(t, Hashed(i, passed, complete, ok), HashDone(t, i, passed, complete, ok), j)
  {
    var t1 := SetPiece(t, i, t.pieces[i].(hashing := false));
    if t.closed {
      FinishOnly(t1, i);
    } else if !passed {
      var t2 := SetPiece(t1, i, t1.pieces[i].(marking := true));
      CompletionRecords(t2, i, complete, ok, j);
      var t3 := UpdateCompletion(t2, i, complete, ok);
      FinishOnly(SetPiece(t3, i, t3.pieces[i].(marking := false)), i);
    }
  }

  lemma MarkDoneWishes(t: Torrent, i: nat, complete: bool, ok: bool, j: nat)
    requires Enabled(t, Marked(i, complete, ok))
    ensures WishesRight(t, Marked(i, complete, ok), MarkDone(t, i, complete, ok), j)
  {
    var t1 := t.(marks := t.marks - multiset{i});
    CompletionRecords(t1, i, complete, ok, j);
    var t2 := if t.closed then t1 else UpdateCompletion(t1, i, complete, ok);
    FinishOnly(SetPiece(t2, i, t2.pieces[i].(marking := false)), i);
  }

  lemma UserWishes(t: Torrent, e: Event, j: nat)
    requires Enabled(t, e) && (e.FilePriority? || e.PiecePriority? || e.Download? || e.Cancel?)
    ensures WishesRight(t, e, Step(t, e), j)
  {
    match e
    case FilePriority(f, prio) => FilePrioritySets(t, f, prio);
    case PiecePriority(i, prio) =>
    case Download(begin, end) => DownloadPiecesDoes(t, begin, end);
    case Cancel(begin, end) => CancelPiecesDoes(t, begin, end);
  }

  lemma ReaderWishes(t: Torrent, e: Event, j: nat)
    requires Enabled(t, e) && (e.ReaderAdded? || e.ReaderMoved? || e.ReaderDeleted?)
    ensures WishesRight(t, e, Step(t, e), j)
  {
    match e
    case ReaderAdded(q, to) => AddReaderSets(t, q, to);
    case ReaderMoved(q, to) => PosChangedSets(t, q, to);
    case ReaderDeleted(q) => DeleteReaderSets(t, q);
  }

  lemma CheckQueuedWishes(t: Torrent, i: nat, j: nat)
    requires Enabled(t, CheckQueued(i))
    ensures WishesRight(t, CheckQueued(i), QueueCheck(t, i), j)
  {
    if i !in t.queued {
      var t1 := UpdatePriority(t.(queued := t.queued + {i}), i);
      HashersOnly(t1);
      var t2 := QueueCheck(t, i);
      assert j < |t.pieces| ==> PieceLeft(t1.pieces[j], j in t1.queued, t2.pieces[j], j in t2.queued);
    }
  }

  /** Each step changes the wishes of the user and of the readers as it says, and no other step does. */
  lemma StepWishes(t: Torrent, e: Event, j: nat)
    requires Enabled(t, e)
    ensures WishesRight(t, e, Step(t, e), j)
  {
    match e
    case CheckQueued(i) => CheckQueuedWishes(t, i, j);
    case CompletionRead(i, complete, ok) => CompletionRecords(t, i, complete, ok, j);
    case Hashed(i, passed, complete, ok) => HashDoneWishes(t, i, passed, complete, ok, j);
    case Marked(i, complete, ok) => MarkDoneWishes(t, i, complete, ok, j);
    case TorrentClosed =>
    case ReaderAdded(_, _) => ReaderWishes(t, e, j);
    case ReaderMoved(_, _) => ReaderWishes(t, e, j);
    case ReaderDeleted(_) => ReaderWishes(t, e, j);
    case _ => UserWishes(t, e, j);
  }

  // ---------------------------------------------------------------- priorities

  lemma {:induction false} HighestIs(files: seq<File>)
    ensures forall f | f in files :: f.prio <= HighestPrio(files)
    ensures HighestPrio(files) == 0 || exists f :: f in files && f.prio == HighestPrio(files)
  {
    if files == [] {
    } else {
      HighestIs(files[1..]);
      assert files[0] in files;
      forall f | f in files
        ensures f.prio <= HighestPrio(files)
      {
        assert f == files[0] || f in files[1..];
      }
      if HighestPrio(files) != 0 && HighestPrio(files) != files[0].prio {
        var f :| f in files[1..] && f.prio == HighestPrio(files[1..]);
        assert f in files;
      }
    }
  }

  /** What asks for a piece, and how urgently. */
  ghost predicate Claims(t: Torrent, i: nat, prio: nat)
    requires i < |t.pieces|
  {
    || (exists f :: f in t.FilesOf(i) && f.prio == prio)
    || (i in t.reading.now && prio == 5)
    || (i in t.reading.readahead && prio == 3)
    || t.pieces[i].priority == prio
  }

  /** The priority of a piece is the highest that anything claims for it. */
  lemma PriorityIsHighest(t: Torrent, i: nat)
    requires i < |t.pieces|
    ensures Claims(t, i, t.PurePriority(i))
    ensures forall prio: nat | Claims(t, i, prio) :: prio <= t.PurePriority(i)
  {
    HighestIs(t.FilesOf(i));
  }
}
