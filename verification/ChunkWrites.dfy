/**
 * Received chunks are written with the client lock released: `Begin` is the part before the
 * write, `End` the part after it, and anything may happen in between.
 */
module ChunkWrites {
  import opened Common
  import opened Division

  datatype State = State(
    perPiece: nat,             // request indices per piece; the last piece may use fewer
    chunks: seq<nat>,          // how many chunks each piece has
    completed: set<nat>,       // pieces
    dirty: set<nat>,           // request indices
    pendingWrites: seq<nat>,   // per piece
    queued: set<nat>,          // pieces queued for hashing
    writing: map<nat, nat>,    // what each receiver is writing, on its own stack
    written: set<nat>)         // history: written successfully since last marked dirty
  {
    predicate Chunk(r: nat) {
      perPiece > 0 && r / perPiece < |chunks| && r % perPiece < chunks[r / perPiece]
    }

    function DirtyOf(i: nat): set<nat> {
      set r | r in dirty && i * perPiece <= r < (i + 1) * perPiece
    }

    predicate AllDirty(i: nat)
      requires i < |chunks|
    {
      |DirtyOf(i)| == chunks[i]
    }

    predicate HaveChunk(r: nat)
      requires Chunk(r)
    {
      r / perPiece in completed || r in dirty
    }

    /** The receivers that are writing into a piece. */
    ghost function Writers(i: nat): set<nat>
      requires perPiece > 0
    {
      set w | w in writing && writing[w] / perPiece == i
    }
  }

  // ------------------------------------------------------------------ steps

  function Begin(s: State, w: nat, r: nat): State
    requires s.Chunk(r) && |s.pendingWrites| == |s.chunks|
  {
    var i := r / s.perPiece;
    if s.HaveChunk(r) then s
    else
      s.(pendingWrites := s.pendingWrites[i := s.pendingWrites[i] + 1],
         dirty := s.dirty + {r},
         writing := s.writing[w := r],
         written := s.written - {r})
  }

  /** Whether the end of a successful write queues the piece. */
  predicate Queues(s: State, i: nat)
    requires i < |s.chunks| && i < |s.pendingWrites|
  {
    s.AllDirty(i) && s.pendingWrites[i] == 0
  }

  function End(s: State, w: nat, ok: bool): Outcome<State>
    requires w in s.writing && s.Chunk(s.writing[w]) && |s.pendingWrites| == |s.chunks|
  {
    var r := s.writing[w];
    var i := r / s.perPiece;
    if s.pendingWrites[i] == 0 then Panic("assertion")
    else
      var s1 := s.(pendingWrites := s.pendingWrites[i := s.pendingWrites[i] - 1], writing := s.writing - {w});
      if !ok then Done(s1.(dirty := s.dirty - {r}))
      else
        var s2 := s1.(written := s.written + {r});
        Done(if Queues(s2, i) then s2.(queued := s.queued + {i}) else s2)
  }

  /** All chunks of a piece are wanted again. */
  function PendAll(s: State, i: nat): State {
    s.(dirty := s.dirty - s.DirtyOf(i))
  }

  // -------------------------------------------------------------- invariant

  ghost predicate Inv(s: State) {
    && s.perPiece > 0
    && |s.pendingWrites| == |s.chunks|
    && (forall i | 0 <= i < |s.chunks| :: s.chunks[i] <= s.perPiece && s.pendingWrites[i] == |s.Writers(i)|)
    && (forall w | w in s.writing :: s.Chunk(s.writing[w]))
    && (forall r | r in s.dirty :: s.Chunk(r) && (r in s.written || Written(s, r)))
  }

  /** Some receiver is writing the chunk. */
  ghost predicate Written(s: State, r: nat) {
    exists w | w in s.writing :: s.writing[w] == r
  }

  /** What a queued piece is: nothing is being written to it and all of it has been written. */
  ghost predicate Settled(s: State, i: nat)
    requires s.perPiece > 0 && i < |s.chunks|
  {
    && s.Writers(i) == {}
    && Row(i * s.perPiece, s.chunks[i]) <= s.written * s.dirty
  }

  lemma WritersUpdate(s: State, w: nat, r: nat, i: nat)
    requires s.perPiece > 0 && w !in s.writing
    ensures |s.(writing := s.writing[w := r]).Writers(i)| ==
            |s.Writers(i)| + if r / s.perPiece == i then 1 else 0
  {
    var after := s.(writing := s.writing[w := r]).Writers(i);
    assert w !in s.Writers(i);
    if r / s.perPiece == i {
      assert after == s.Writers(i) + {w};
    } else {
      assert after == s.Writers(i);
    }
  }

  lemma BeginKeeps(s: State, w: nat, r: nat)
    requires Inv(s) && s.Chunk(r) && w !in s.writing
    ensures Inv(Begin(s, w, r)) && Begin(s, w, r).HaveChunk(r)
    ensures w in Begin(s, w, r).writing <==> !s.HaveChunk(r)
  {
    var s1 := Begin(s, w, r);
    if !s.HaveChunk(r) {
      forall i | 0 <= i < |s.chunks|
        ensures s1.pendingWrites[i] == |s1.Writers(i)|
      {
        WritersUpdate(s, w, r, i);
        assert s1.Writers(i) == s.(writing := s.writing[w := r]).Writers(i);
      }
      forall x | x in s1.dirty
        ensures s1.Chunk(x) && (x in s1.written || Written(s1, x))
      {
        if x == r {
          assert s1.writing[w] == r;
        } else if x !in s.written {
          var v :| v in s.writing && s.writing[v] == x;
          assert s1.writing[v] == x;
        }
      }
    }
  }

  lemma EndWrite(s: State, w: nat, ok: bool, s1: State)
    requires Inv(s) && w in s.writing
    requires var r := s.writing[w];
             var i := r / s.perPiece;
             s.pendingWrites[i] > 0 &&
             s1 == s.(pendingWrites := s.pendingWrites[i := s.pendingWrites[i] - 1],
                      writing := s.writing - {w},
                      dirty := if ok then s.dirty else s.dirty - {r},
                      written := if ok then s.written + {r} else s.written)
    ensures Inv(s1)
  {
    forall i | 0 <= i < |s.chunks|
      ensures s1.pendingWrites[i] == |s1.Writers(i)|
    {
      WritersLess(s, w, s1, i);
    }
    forall x | x in s1.dirty
      ensures s1.Chunk(x) && (x in s1.written || Written(s1, x))
    {
      if x !in s1.written {
        StillWritten(s, w, s1, x);
      }
    }
  }

  lemma WritersLess(s: State, w: nat, s1: State, i: nat)
    requires s.perPiece > 0 && s1.perPiece == s.perPiece && w in s.writing && s1.writing == s.writing - {w}
    ensures |s.Writers(i)| == |s1.Writers(i)| + if s.writing[w] / s.perPiece == i then 1 else 0
  {
    WritersUpdate(s1, w, s.writing[w], i);
    assert s1.writing[w := s.writing[w]] == s.writing;
    assert s1.(writing := s.writing).Writers(i) == s.Writers(i);
  }

  lemma StillWritten(s: State, w: nat, s1: State, x: nat)
    requires w in s.writing && s1.writing == s.writing - {w} && Written(s, x) && s.writing[w] != x
    ensures Written(s1, x)
  {
    var v :| v in s.writing && s.writing[v] == x;
    assert s1.writing[v] == x;
  }

  lemma QueuedKeeps(s: State, queued: set<nat>)
    requires Inv(s)
    ensures Inv(s.(queued := queued))
  {
    var s1 := s.(queued := queued);
    forall i | 0 <= i < |s.chunks|
      ensures s1.Writers(i) == s.Writers(i)
    {
    }
    forall r | r in s.dirty && r !in s.written
      ensures Written(s1, r)
    {
      var v :| v in s.writing && s.writing[v] == r;
      assert s1.writing[v] == r;
    }
  }

  /** The assertion on the counter cannot fail, and a piece that gets queued is settled. */
  lemma EndKeeps(s: State, w: nat, ok: bool)
    requires Inv(s) && w in s.writing
    ensures End(s, w, ok).Done? && Inv(End(s, w, ok).value)
    ensures var s1, r := End(s, w, ok).value, s.writing[w];
            && s1.writing == s.writing - {w}
            && (ok ==> r in s1.written) && (!ok ==> s1.dirty == s.dirty - {r} && s1.queued == s.queued)
    ensures var s1, i := End(s, w, ok).value, s.writing[w] / s.perPiece;
            && (s1.queued != s.queued ==> s1.queued == s.queued + {i} && Settled(s1, i))
            && (ok && s1.Writers(i) == {} && s1.AllDirty(i) ==> i in s1.queued)
  {
    var r := s.writing[w];
    var i := r / s.perPiece;
    assert w in s.Writers(i);
    var s1 := End(s, w, ok).value;
    var s2 := s1.(queued := s.queued);
    EndWrite(s, w, ok, s2);
    QueuedKeeps(s2, s1.queued);
    if s1.queued != s.queued {
      AllDirtySettled(s1, i);
    }
  }

  /** The numbers `from`, ..., `from + n - 1`. */
  function Row(from: nat, n: nat): (xs: set<nat>)
    ensures forall x :: x in xs <==> from <= x < from + n
    ensures |xs| == n
  {
    if n == 0 then {} else Row(from, n - 1) + {from + n - 1}
  }

  lemma SameSize<T>(a: set<T>, b: set<T>)
    requires a <= b
    ensures |a| == |b| <==> a == b
  {
    if a != b {
      assert |b - a| > 0;
      assert b == a + (b - a);
    }
  }

  lemma DirtyInRow(s: State, i: nat)
    requires Inv(s) && i < |s.chunks|
    ensures s.DirtyOf(i) <= Row(i * s.perPiece, s.chunks[i])
  {
    forall r | r in s.DirtyOf(i)
      ensures i * s.perPiece <= r < i * s.perPiece + s.chunks[i]
    {
      assert s.Chunk(r);
      QuotientIs(r, s.perPiece, i);
    }
  }

  /** Counting is enough: as many dirty chunks as there are chunks means all of them. */
  lemma AllDirtyMeans(s: State, i: nat)
    requires Inv(s) && i < |s.chunks|
    ensures s.AllDirty(i) <==> s.DirtyOf(i) == Row(i * s.perPiece, s.chunks[i])
  {
    DirtyInRow(s, i);
    SameSize(s.DirtyOf(i), Row(i * s.perPiece, s.chunks[i]));
  }

  lemma AllDirtySettled(s: State, i: nat)
    requires Inv(s) && i < |s.chunks| && Queues(s, i)
    ensures Settled(s, i)
  {
    AllDirtyMeans(s, i);
    assert s.pendingWrites[i] == |s.Writers(i)|;
    forall r | r in s.DirtyOf(i)
      ensures r in s.written
    {
      DirtyIsWritten(s, i, r);
    }
  }

  lemma DirtyIsWritten(s: State, i: nat, r: nat)
    requires Inv(s) && r in s.DirtyOf(i) && s.Writers(i) == {}
    ensures r in s.written
  {
    if Written(s, r) {
      WritingInto(s, r, i);
    }
  }

  lemma WritingInto(s: State, r: nat, i: nat)
    requires s.perPiece > 0 && i * s.perPiece <= r < (i + 1) * s.perPiece && Written(s, r)
    ensures s.Writers(i) != {}
  {
    var w :| w in s.writing && s.writing[w] == r;
    QuotientIs(r, s.perPiece, i);
    assert w in s.Writers(i);
  }

  lemma OthersKeep(s: State, dirty: set<nat>, completed: set<nat>)
    requires Inv(s) && dirty <= s.dirty
    ensures Inv(s.(dirty := dirty, completed := completed))
  {
    var s1 := s.(dirty := dirty, completed := completed);
    forall i | 0 <= i < |s.chunks|
      ensures s1.Writers(i) == s.Writers(i)
    {
    }
    forall r | r in dirty && r !in s.written
      ensures Written(s1, r)
    {
      var v :| v in s.writing && s.writing[v] == r;
      assert s1.writing[v] == r;
    }
  }

  // ------------------------------------------------------------- whole runs

  datatype Event =
    | Began(w: nat, r: nat)          // a receiver gets a chunk and starts to write it
    | Ended(w: nat, ok: bool)        // its write returns
    | Pended(i: nat)                 // all chunks of a piece are wanted again
    | Hashed(i: nat)                 // the piece leaves the hash queue
    | Completion(pieces: set<nat>)   // pieces become complete or incomplete

  predicate Enabled(s: State, e: Event) {
    && |s.pendingWrites| == |s.chunks|
    && match e
       case Began(w, r) => w !in s.writing && s.Chunk(r)
       case Ended(w, _) => w in s.writing && s.Chunk(s.writing[w])
       case _ => true
  }

  function Step(s: State, e: Event): Outcome<State>
    requires Enabled(s, e)
  {
    match e
    case Began(w, r) => Done(Begin(s, w, r))
    case Ended(w, ok) => End(s, w, ok)
    case Pended(i) => Done(PendAll(s, i))
    case Hashed(i) => Done(s.(queued := s.queued - {i}))
    case Completion(pieces) => Done(s.(completed := pieces))
  }

  /** Every step keeps the books, and whatever it queues is settled. */
  lemma StepKeeps(s: State, e: Event)
    requires Inv(s) && Enabled(s, e)
    ensures Step(s, e).Done? && Inv(Step(s, e).value)
    ensures forall i: nat | i in Step(s, e).value.queued - s.queued ::
              i < |s.chunks| && Step(s, e).value.chunks == s.chunks && Settled(Step(s, e).value, i)
  {
    match e
    case Began(w, r) => BeginKeeps(s, w, r);
    case Ended(w, ok) => EndKeeps(s, w, ok);
    case Pended(i) => OthersKeep(s, s.dirty - s.DirtyOf(i), s.completed);
    case Hashed(i) => QueuedKeeps(s, s.queued - {i});
    case Completion(pieces) => OthersKeep(s, s.dirty, pieces);
  }

  ghost predicate Reaches(s: State, es: seq<Event>, t: State)
    decreases es
  {
    if es == [] then s == t
    else Enabled(s, es[0]) && Step(s, es[0]).Done? && Reaches(Step(s, es[0]).value, es[1..], t)
  }

  // --------------------------------------------------------- what is received

  /** The step makes chunk `x` wanted again: its write fails, its piece is pended, or no longer complete. */
  predicate Undoes(s: State, e: Event, x: nat)
    requires s.perPiece > 0 && Enabled(s, e)
  {
    var i := x / s.perPiece;
    match e
    case Ended(w, ok) => !ok && s.writing[w] == x && i !in s.completed
    case Pended(k) => k == i && i !in s.completed
    case Completion(pieces) => i in s.completed && i !in pieces && x !in s.dirty
    case _ => false
  }

  /** The step makes chunk `x` count as there: it is received, or its piece becomes complete. */
  predicate Provides(s: State, e: Event, x: nat)
    requires s.perPiece > 0
  {
    (e.Began? && e.r == x) || (e.Completion? && x / s.perPiece in e.pieces)
  }

  lemma PendedChunk(perPiece: nat, x: nat, i: nat)
    requires perPiece > 0
    ensures i * perPiece <= x < (i + 1) * perPiece <==> x / perPiece == i
  {
    if i * perPiece <= x < (i + 1) * perPiece {
      QuotientIs(x, perPiece, i);
    } else {
      Quotient(x, perPiece);
    }
  }

  /** After a step a chunk is there if it was and the step does not undo it, or if the step provides it. */
  lemma StepReceives(s: State, e: Event, x: nat)
    requires Inv(s) && Enabled(s, e) && s.Chunk(x)
    ensures Step(s, e).Done? && Step(s, e).value.Chunk(x)
    ensures Step(s, e).value.HaveChunk(x) <==> Provides(s, e, x) || (s.HaveChunk(x) && !Undoes(s, e, x))
  {
    StepKeeps(s, e);
    if e.Pended? {
      PendedChunk(s.perPiece, x, e.i);
    }
  }

  /** Only a hasher takes a piece off the queue, and only the storage says what is complete. */
  lemma StepLeaves(s: State, e: Event, i: nat)
    requires Inv(s) && Enabled(s, e)
    ensures Step(s, e).Done?
    ensures i in s.queued && e != Hashed(i) ==> i in Step(s, e).value.queued
    ensures e == Hashed(i) ==> i !in Step(s, e).value.queued
    ensures Step(s, e).value.completed == if e.Completion? then e.pieces else s.completed
    ensures Step(s, e).value.perPiece == s.perPiece && Step(s, e).value.chunks == s.chunks
  {
    StepKeeps(s, e);
  }

  /** A chunk has been written since it was last received if and only if its last write ended well. */
  lemma StepWrites(s: State, e: Event, x: nat)
    requires Inv(s) && Enabled(s, e)
    ensures Step(s, e).Done?
    ensures x in Step(s, e).value.written <==>
            || (e.Ended? && e.ok && s.writing[e.w] == x)
            || (x in s.written && !(e.Began? && e.r == x && !s.HaveChunk(x)))
  {
    StepKeeps(s, e);
  }

  /** No step of the run makes the chunk wanted again. */
  ghost predicate NeverUndone(s: State, es: seq<Event>, x: nat)
    requires s.perPiece > 0
    decreases es
  {
    es == [] ||
    (Enabled(s, es[0]) && !Undoes(s, es[0], x) &&
     (Step(s, es[0]).Done? && Step(s, es[0]).value.perPiece > 0 ==> NeverUndone(Step(s, es[0]).value, es[1..], x)))
  }

  /** A received chunk stays received until its own write fails, its piece is pended, or is no longer complete. */
  lemma {:induction false} ReceivedStays(s: State, es: seq<Event>, t: State, x: nat)
    requires Inv(s) && Reaches(s, es, t) && s.Chunk(x) && s.HaveChunk(x) && NeverUndone(s, es, x)
    ensures t.Chunk(x) && t.HaveChunk(x)
    decreases es
  {
    if es == [] {
    } else {
      StepKeeps(s, es[0]);
      StepReceives(s, es[0], x);
      ReceivedStays(Step(s, es[0]).value, es[1..], t, x);
    }
  }

  /** Before anything is received the invariant holds. */
  lemma FreshInv(perPiece: nat, chunks: seq<nat>, completed: set<nat>)
    requires perPiece > 0 && forall i | 0 <= i < |chunks| :: chunks[i] <= perPiece
    ensures Inv(State(perPiece, chunks, completed, {}, seq(|chunks|, i => 0), {}, map[], {}))
  {
    var s := State(perPiece, chunks, completed, {}, seq(|chunks|, i => 0), {}, map[], {});
    forall i | 0 <= i < |chunks|
      ensures s.pendingWrites[i] == |s.Writers(i)|
    {
      assert s.Writers(i) == {};
    }
  }

  /** Over every run the counters count the writes in flight, and each queueing finds the piece settled. */
  lemma {:induction false} RunKeeps(s: State, es: seq<Event>, t: State, e: Event)
    requires Inv(s) && Reaches(s, es, t) && Enabled(t, e)
    ensures Inv(t) && Step(t, e).Done?
    ensures forall i | 0 <= i < |t.chunks| :: t.pendingWrites[i] == |t.Writers(i)|
    ensures forall i: nat | i in Step(t, e).value.queued - t.queued ::
              i < |Step(t, e).value.chunks| && Step(t, e).value.perPiece > 0 && Settled(Step(t, e).value, i)
    decreases es
  {
    if es == [] {
      StepKeeps(t, e);
    } else {
      StepKeeps(s, es[0]);
      RunKeeps(Step(s, es[0]).value, es[1..], t, e);
    }
  }

  // ------------------------------------------------------- the receiving code

  class ChunkTable {
    const perPiece: nat
    const chunks: seq<nat>
    var completedPieces: set<nat>
    var dirtyChunks: set<nat>
    var pendingWrites: seq<nat>
    var piecesQueuedForHash: set<nat>
    ghost var writing: map<nat, nat>   // held on the receivers' stacks
    ghost var written: set<nat>

    ghost function View(): State
      reads this
    {
      State(perPiece, chunks, completedPieces, dirtyChunks, pendingWrites, piecesQueuedForHash, writing, written)
    }

    /** Receive a chunk, up to the point where the lock is released; false if it is not wanted. */
    method ReceiveChunk(w: nat, r: nat) returns (wanted: bool)
      requires View().Chunk(r) && |pendingWrites| == |chunks| && w !in writing
      modifies this
      ensures View() == Begin(old(View()), w, r)
      ensures wanted <==> w in writing
    {
      var i := r / perPiece;
      if i in completedPieces || r in dirtyChunks {
        return false;
      }
      pendingWrites := pendingWrites[i := pendingWrites[i] + 1];
      dirtyChunks := dirtyChunks + {r};
      writing, written := writing[w := r], written - {r};
      return true;
    }

    /** How many chunks of a piece are dirty. */
    method NumDirtyChunks(i: nat) returns (n: nat)
      ensures n == |View().DirtyOf(i)|
    {
      var dirtyOf := set x | x in dirtyChunks && i * perPiece <= x < (i + 1) * perPiece;
      assert dirtyOf == View().DirtyOf(i);
      n := |dirtyOf|;
    }

    /** The lock is held again: `ok` is what the storage said. */
    method FinishChunk(w: nat, r: nat, ok: bool)
      requires Inv(View()) && w in writing && writing[w] == r
      modifies this
      ensures End(old(View()), w, ok) == Done(View()) && Inv(View())
    {
      EndKeeps(View(), w, ok);
      var i := r / perPiece;
      assert pendingWrites[i] != 0;
      pendingWrites := pendingWrites[i := pendingWrites[i] - 1];
      writing := writing - {w};
      if !ok {
        dirtyChunks := dirtyChunks - {r};
        return;
      }
      written := written + {r};
      var count := NumDirtyChunks(i);
      if count == chunks[i] && pendingWrites[i] == 0 {
        piecesQueuedForHash := piecesQueuedForHash + {i};
      }
    }

    method PendAllChunkSpecs(i: nat)
      requires Inv(View())
      modifies this
      ensures View() == PendAll(old(View()), i) && Inv(View())
    {
      OthersKeep(View(), dirtyChunks - View().DirtyOf(i), completedPieces);
      dirtyChunks := set x | x in dirtyChunks && !(i * perPiece <= x < (i + 1) * perPiece);
      assert dirtyChunks == PendAll(old(View()), i).dirty;
    }
  }
}
