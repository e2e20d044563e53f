/** The pieces of a torrent as an object that updates its fields in place, tied to PieceLifecycle. */
module PieceTables {
  import opened Common
  import opened Division
  import opened FileRanges
  import opened PieceLifecycle

  class PieceTable {
    const pieceLength: nat
    const hasStorage: bool
    var files: seq<File>
    var pieces: seq<Piece>
    var completedPieces: set<nat>
    var piecesQueuedForHash: set<nat>
    var pendingPieces: set<nat>
    var readerPieces: map<nat, Range>
    var readers: set<nat>
    var readerNowPieces: set<nat>
    var readerReadaheadPieces: set<nat>
    var activePieceHashes: nat
    var closed: bool
    ghost var marks: multiset<nat>   // the hashers that are marking their piece, on their own stacks

    function Reading(): Reading
      reads this
    {
      PieceLifecycle.Reading(readerPieces, readers, readerNowPieces, readerReadaheadPieces)
    }

    ghost function View(): Torrent
      reads this
    {
      Torrent(pieceLength, files, pieces, completedPieces, piecesQueuedForHash, pendingPieces, Reading(),
              marks, activePieceHashes, hasStorage, closed)
    }

    /** The priority of a piece, as computed from the files, the readers and the user. */
    method UncachedPriority(i: nat) returns (prio: nat)
      requires i < |pieces|
      ensures prio == View().UncachedPriority(i)
    {
      if pieces[i].hashing || pieces[i].marking || i in completedPieces || i in piecesQueuedForHash {
        return NONE;
      }
      var a := PieceFirstFileIndex(i * pieceLength, files);
      var end := if (i + 1) * pieceLength < Total(files) then (i + 1) * pieceLength else Total(files);
      var b := PieceEndFileIndex(end, files);
      prio := NONE;
      var fs := if a <= b then files[a..b] else [];
      var k := |fs|;
      while k > 0
        invariant 0 <= k <= |fs| && prio == HighestPrio(fs[k..])
      {
        k := k - 1;
        assert fs[k..][1..] == fs[k + 1..];
        if fs[k].prio > prio {
          prio := fs[k].prio;
        }
      }
      assert fs[0..] == fs;
      if i in readerNowPieces && NOW > prio {
        prio := NOW;
      }
      if i in readerReadaheadPieces && READAHEAD > prio {
        prio := READAHEAD;
      }
      if pieces[i].priority > prio {
        prio := pieces[i].priority;
      }
    }

    method UpdatePiecePriority(i: nat)
      requires i < |pieces|
      modifies this`pendingPieces
      ensures View() == UpdatePriority(old(View()), i)
    {
      var prio := UncachedPriority(i);
      if prio == NONE {
        pendingPieces := pendingPieces - {i};
      } else {
        pendingPieces := pendingPieces + {i};
      }
    }

    method UpdatePiecePriorities(begin: nat, end: nat)
      requires end <= |pieces|
      modifies this`pendingPieces
      ensures View() == UpdatePriorities(old(View()), begin, end)
    {
      var i := begin;
      while i < end
        invariant begin <= i && (i <= end || i == begin)
        invariant UpdatePriorities(old(View()), begin, end) == UpdatePriorities(View(), i, end)
        decreases end - i
      {
        UpdatePiecePriority(i);
        i := i + 1;
      }
    }

    method SetFilePriority(f: nat, prio: nat)
      requires Shaped(View()) && f < |files|
      modifies this
      ensures View() == PieceLifecycle.SetFilePriority(old(View()), f, prio)
    {
      if prio != files[f].prio {
        var begin, end := BeginPieceIndex(files[f], pieceLength), EndPieceIndex(files[f], pieceLength);
        FileInRange(files, pieceLength, f);
        files := files[f := files[f].(prio := prio)];
        UpdatePiecePriorities(begin, end);
      }
    }

    method SetPiecePriority(i: nat, prio: nat)
      requires i < |pieces|
      modifies this
      ensures View() == PieceLifecycle.SetPiecePriority(old(View()), i, prio)
    {
      pieces := pieces[i := pieces[i].(priority := prio)];
      UpdatePiecePriority(i);
    }

    method DownloadPieces(begin: nat, end: nat)
      requires end <= |pieces|
      modifies this
      ensures View() == PieceLifecycle.DownloadPieces(old(View()), begin, end)
    {
      var i := begin;
      while i < end
        invariant begin <= i && (i <= end || i == begin) && end <= |pieces|
        invariant PieceLifecycle.DownloadPieces(old(View()), begin, end) ==
                  PieceLifecycle.DownloadPieces(View(), i, end)
        decreases end - i
      {
        if NORMAL > pieces[i].priority {
          SetPiecePriority(i, NORMAL);
        }
        i := i + 1;
      }
    }

    method CancelPieces(begin: nat, end: nat)
      requires end <= |pieces|
      modifies this
      ensures View() == PieceLifecycle.CancelPieces(old(View()), begin, end)
    {
      var i := begin;
      while i < end
        invariant begin <= i && (i <= end || i == begin) && end <= |pieces|
        invariant PieceLifecycle.CancelPieces(old(View()), begin, end) ==
                  PieceLifecycle.CancelPieces(View(), i, end)
        decreases end - i
      {
        if pieces[i].priority != NONE {
          SetPiecePriority(i, NONE);
        }
        i := i + 1;
      }
    }

    /** Collect what the registered readers want, one reader at a time. */
    method UpdateReaderPieces()
      modifies this`readerNowPieces, this`readerReadaheadPieces
      ensures View() == PieceLifecycle.UpdateReaderPieces(old(View()))
    {
      var now, ahead: set<nat> := {}, {};
      var todo, done := readers, {};
      while todo != {}
        invariant done + todo == readers && done !! todo
        invariant now == NowPieces(Reading().(registered := done))
        invariant ahead == AheadPieces(Reading().(registered := done))
      {
        var r :| r in todo;
        todo, done := todo - {r}, done + {r};
        if r in readerPieces && readerPieces[r].begin < readerPieces[r].end {
          now := now + {readerPieces[r].begin};
          ahead := ahead + readerPieces[r].Ahead();
        }
        ReaderAdds(Reading(), done, r);
      }
      assert Reading().(registered := done) == Reading();
      readerNowPieces, readerReadaheadPieces := now, ahead;
    }

    method ReaderPosChanged(from: Range, to: Range)
      requires from.end <= |pieces| && to.end <= |pieces|
      modifies this
      ensures View() == PieceLifecycle.ReaderPosChanged(old(View()), from, to)
    {
      if from == to {
        return;
      }
      UpdateReaderPieces();
      var l, h := from, to;
      if l.begin > h.begin {
        l, h := h, l;
      }
      if l.end < h.begin {
        UpdatePiecePriorities(l.begin, l.end);
        UpdatePiecePriorities(h.begin, h.end);
      } else {
        var end := l.end;
        if h.end > end {
          end := h.end;
        }
        UpdatePiecePriorities(l.begin, end);
      }
    }

    method PosChanged(r: nat, to: Range)
      requires Shaped(View()) && r in readerPieces && to.end <= |pieces|
      modifies this
      ensures View() == PieceLifecycle.PosChanged(old(View()), r, to)
    {
      var from := readerPieces[r];
      if to == from {
        return;
      }
      readerPieces := readerPieces[r := to];
      ReaderPosChanged(from, to);
    }

    method AddReader(r: nat, to: Range)
      requires Shaped(View()) && to.end <= |pieces|
      modifies this
      ensures View() == PieceLifecycle.AddReader(old(View()), r, to)
    {
      readers := readers + {r};
      readerPieces := readerPieces[r := Range(0, 0)];
      PosChanged(r, to);
    }

    method DeleteReader(r: nat)
      modifies this
      ensures View() == PieceLifecycle.DeleteReader(old(View()), r)
    {
      readers := readers - {r};
      UpdateReaderPieces();
      UpdatePiecePriorities(0, |pieces|);
    }

    method UpdatePieceCompletion(i: nat, complete: bool, ok: bool) returns (changed: bool)
      requires i < |pieces|
      modifies this
      ensures View() == UpdateCompletion(old(View()), i, complete, ok)
      ensures changed == (old(i in completedPieces) != complete || old(pieces)[i].storageOk != ok)
    {
      changed := (i in completedPieces) != complete || pieces[i].storageOk != ok;
      pieces := pieces[i := pieces[i].(storageOk := ok)];
      if complete {
        completedPieces := completedPieces + {i};
      } else {
        completedPieces := completedPieces - {i};
      }
      if changed {
        UpdatePiecePriority(i);
      }
    }

    /** The first piece that is queued and not being hashed. */
    method GetPieceToHash() returns (r: Option<nat>)
      ensures r == PieceToHash(View())
    {
      var i := 0;
      while i < |pieces|
        invariant 0 <= i <= |pieces|
        invariant PieceToHash(View()) == PieceToHash(View(), i)
      {
        if i in piecesQueuedForHash && !pieces[i].hashing {
          return Some(i);
        }
        i := i + 1;
      }
      return None;
    }

    method TryCreatePieceHasher() returns (created: bool)
      modifies this
      ensures created == (hasStorage && PieceToHash(old(View())).Some?)
      ensures View() == if created then StartHasher(old(View()), PieceToHash(old(View())).value) else old(View())
    {
      if !hasStorage {
        return false;
      }
      var pi := GetPieceToHash();
      if pi.None? {
        return false;
      }
      piecesQueuedForHash := piecesQueuedForHash - {pi.value};
      pieces := pieces[pi.value := pieces[pi.value].(hashing := true)];
      UpdatePiecePriority(pi.value);
      activePieceHashes := activePieceHashes + 1;
      return true;
    }

    method TryCreateMorePieceHashers()
      modifies this
      ensures View() == TryCreateMoreHashers(old(View()))
    {
      var more := true;
      while !closed && activePieceHashes < 2 && more
        invariant TryCreateMoreHashers(old(View())) == TryCreateMoreHashers(View())
        invariant !more ==> TryCreateMoreHashers(View()) == View()
        decreases more, 2 - activePieceHashes
      {
        more := TryCreatePieceHasher();
      }
    }

    method QueuePieceCheck(i: nat)
      requires i < |pieces|
      modifies this
      ensures View() == QueueCheck(old(View()), i)
    {
      if i in piecesQueuedForHash {
        return;
      }
      piecesQueuedForHash := piecesQueuedForHash + {i};
      UpdatePiecePriority(i);
      TryCreateMorePieceHashers();
    }

    /** The end of a hasher. */
    method FinishPieceHasher(i: nat)
      requires i < |pieces| && activePieceHashes > 0
      modifies this
      ensures View() == FinishHasher(old(View()), i)
    {
      UpdatePiecePriority(i);
      activePieceHashes := activePieceHashes - 1;
      TryCreateMorePieceHashers();
    }

    method SetPiece(i: nat, p: Piece)
      requires i < |pieces|
      modifies this`pieces
      ensures View() == PieceLifecycle.SetPiece(old(View()), i, p)
    {
      pieces := pieces[i := p];
    }

    /** Take over the storage's word on a piece that is marked, and unmark it. */
    method Unmark(i: nat, complete: bool, ok: bool)
      requires i < |pieces| && activePieceHashes > 0
      modifies this
      ensures var t := if old(closed) then old(View()) else UpdateCompletion(old(View()), i, complete, ok);
              View() == FinishHasher(PieceLifecycle.SetPiece(t, i, t.pieces[i].(marking := false)), i)
    {
      if !closed {
        var _ := UpdatePieceCompletion(i, complete, ok);
      }
      SetPiece(i, pieces[i].(marking := false));
      FinishPieceHasher(i);
    }

    /** A hasher reports; with the right hash it leaves to mark the piece, without the lock. */
    method PieceHashed(i: nat, passed: bool, complete: bool, ok: bool)
      requires i < |pieces| && activePieceHashes > 0
      modifies this
      ensures View() == HashDone(old(View()), i, passed, complete, ok)
    {
      SetPiece(i, pieces[i].(hashing := false));
      if closed {
        FinishPieceHasher(i);
      } else {
        SetPiece(i, pieces[i].(marking := true));
        if passed {
          marks := marks + multiset{i};
        } else {
          Unmark(i, complete, ok);
        }
      }
    }

    /** A hasher is back from marking its piece. */
    method PieceMarked(i: nat, complete: bool, ok: bool)
      requires i < |pieces| && activePieceHashes > 0
      modifies this
      ensures View() == MarkDone(old(View()), i, complete, ok)
    {
      marks := marks - multiset{i};
      Unmark(i, complete, ok);
    }
  }

  /** The pieces of a file are pieces of the torrent. */
  lemma FileInRange(files: seq<File>, pieceLength: nat, f: nat)
    requires Laid(files) && f < |files| && pieceLength > 0
    ensures EndPieceIndex(files[f], pieceLength) <= CeilDiv(Total(files), pieceLength)
  {
    if f < |files| - 1 {
      LaidOrder(files, f, |files| - 1);
    }
    var n := CeilDiv(Total(files), pieceLength);
    CeilAbove(Total(files), pieceLength, n);
    CeilAbove(files[f].End(), pieceLength, n);
  }

  /** What one more reader adds to the pieces that are read. */
  lemma ReaderAdds(r: Reading, done: set<nat>, q: nat)
    requires q in done
    ensures var before, after := r.(registered := done - {q}), r.(registered := done);
            var wants := q in r.ranges && r.ranges[q].begin < r.ranges[q].end;
            && NowPieces(after) == NowPieces(before) + (if wants then {r.ranges[q].begin} else {})
            && AheadPieces(after) == AheadPieces(before) + (if wants then r.ranges[q].Ahead() else {})
  {
  }
}
