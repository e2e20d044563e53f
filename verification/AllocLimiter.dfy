/**
 * Reservations of a shared allocation limit, as a state machine whose steps are the stretches that
 * run under the mutexes.  A releaser holds its reservation's mutex until the freed space has been
 * handed out; whoever hands out space holds the limiter's mutex.
 */
module AllocLimiter {
  import opened Common

  datatype Res = Res(n: nat, granted: bool, cancelled: bool, released: bool)

  /** Who holds the limiter's mutex across steps; `owner` is the reservation being released, if any. */
  datatype Waker<R> =
    | Nobody
    | Looking(owner: Option<R>)          // about to look at the head of the queue
    | Trying(owner: Option<R>, r: R)     // about to lock the head to grant it

  datatype State<R> = State(
    max: nat,
    value: int,                 // unallocated space
    waiting: seq<R>,
    res: map<R, Res>,
    releasing: set<R>,          // released, but the limiter's mutex is not yet theirs
    wakes: nat,                 // goroutines that will hand out space after a cancellation
    waker: Waker<R>)
  {
    /** A releaser holds the mutex of its reservation. */
    predicate Locked(r: R) {
      r in releasing || (!waker.Nobody? && waker.owner == Some(r))
    }
  }

  // ------------------------------------------------------------------ steps

  function Reserve<R(==)>(s: State<R>, r: R, n: nat): State<R>
    requires r !in s.res
  {
    if n <= s.value then
      s.(value := s.value - n, res := s.res[r := Res(n, true, false, false)])
    else
      s.(waiting := s.waiting + [r], res := s.res[r := Res(n, false, false, false)])
  }

  /** Mark as released, once; the releaser then waits for the limiter. */
  function ReleaseOnce<R(==)>(s: State<R>, r: R): State<R>
    requires r in s.res
  {
    if s.res[r].released then s
    else s.(res := s.res[r := s.res[r].(released := true)], releasing := s.releasing + {r})
  }

  function Release<R(==)>(s: State<R>, r: R): Outcome<State<R>>
    requires r in s.res
  {
    if s.res[r].cancelled then Done(s)
    else if s.res[r].granted then Done(ReleaseOnce(s, r))
    else Panic("not resolved")
  }

  /** Cancelling for the first time starts a goroutine, as the space may now suit the next in line. */
  function CancelOnce<R(==)>(s: State<R>, r: R): State<R>
    requires r in s.res
  {
    if s.res[r].cancelled then s
    else s.(res := s.res[r := s.res[r].(cancelled := true)], wakes := s.wakes + 1)
  }

  function Cancel<R(==)>(s: State<R>, r: R): (State<R>, bool)
    requires r in s.res
  {
    if s.res[r].granted then (s, false) else (CancelOnce(s, r), true)
  }

  function Drop<R(==)>(s: State<R>, r: R): State<R>
    requires r in s.res
  {
    if s.res[r].granted then ReleaseOnce(s, r) else CancelOnce(s, r)
  }

  /** A releaser gets the limiter's mutex and returns its space. */
  function AddValue<R(==)>(s: State<R>, r: R): State<R>
    requires r in s.releasing && r in s.res && s.waker.Nobody?
  {
    s.(value := s.value + s.res[r].n, releasing := s.releasing - {r}, waker := Looking(Some(r)))
  }

  function StartWake<R(==)>(s: State<R>): State<R>
    requires s.wakes > 0 && s.waker.Nobody?
  {
    s.(wakes := s.wakes - 1, waker := Looking(None))
  }

  /** Look at the head: drop it if cancelled, try to grant it if it fits, otherwise stop. */
  function Look<R(==)>(s: State<R>): State<R>
    requires s.waker.Looking? && forall r | r in s.waiting :: r in s.res
  {
    if s.waiting == [] then s.(waker := Nobody)
    else
      var r := s.waiting[0];
      if s.res[r].cancelled then s.(waiting := s.waiting[1..])
      else if s.res[r].n <= s.value then s.(waker := Trying(s.waker.owner, r))
      else s.(waker := Nobody)
  }

  /** Grant the head, unless it was cancelled in the meantime, and drop it from the queue. */
  function Wake<R(==)>(s: State<R>): State<R>
    requires s.waker.Trying? && s.waker.r in s.res && s.waiting != []
  {
    var r := s.waker.r;
    var s1 := s.(waiting := s.waiting[1..], waker := Looking(s.waker.owner));
    if s.res[r].cancelled || s.res[r].granted then s1
    else s1.(res := s.res[r := s.res[r].(granted := true)], value := s.value - s.res[r].n)
  }

  // -------------------------------------------------------------- invariant

  /** The space a reservation takes up. */
  predicate Holds<R>(s: State<R>, r: R)
    requires r in s.res
  {
    s.res[r].granted && (!s.res[r].released || r in s.releasing)
  }

  ghost function Held<R>(s: State<R>): map<R, int> {
    map r | r in s.res :: if Holds(s, r) then s.res[r].n else 0
  }

  ghost predicate ResOk<R>(s: State<R>, r: R)
    requires r in s.res
  {
    var x := s.res[r];
    && !(x.granted && x.cancelled)
    && (x.released ==> x.granted)
    && (r in s.releasing ==> x.released)
    && (x.granted ==> r !in s.waiting)
    && (!x.granted && !x.cancelled ==> r in s.waiting)
  }

  ghost predicate QueueOk<R>(s: State<R>) {
    && (forall r | r in s.waiting :: r in s.res)
    && (forall i, j | 0 <= i < j < |s.waiting| :: s.waiting[i] != s.waiting[j])
  }

  /** Nobody who could be served is at the head. */
  ghost predicate HeadStuck<R>(s: State<R>)
    requires QueueOk(s)
  {
    s.waiting == [] || (!s.res[s.waiting[0]].cancelled && s.res[s.waiting[0]].n > s.value)
  }

  ghost predicate WakerOk<R>(s: State<R>)
    requires QueueOk(s)
  {
    match s.waker
    case Nobody => s.wakes > 0 || HeadStuck(s)
    case Looking(o) => OwnerOk(s, o)
    case Trying(o, r) => OwnerOk(s, o) && s.waiting != [] && r == s.waiting[0] && s.res[r].n <= s.value
  }

  ghost predicate OwnerOk<R>(s: State<R>, o: Option<R>) {
    o.Some? ==> o.value in s.res && o.value !in s.releasing && s.res[o.value].released
  }

  ghost predicate Inv<R>(s: State<R>) {
    && s.value >= 0
    && s.value + Sum(Held(s)) == s.max
    && s.releasing <= s.res.Keys
    && QueueOk(s)
    && (forall r | r in s.res :: ResOk(s, r))
    && WakerOk(s)
  }

  /** Changing one reservation changes the held space by its share. */
  lemma HeldUpdate<R>(s: State<R>, s1: State<R>, r: R)
    requires r in s.res && r in s1.res && s1.res == s.res[r := s1.res[r]]
    requires s1.releasing - {r} == s.releasing - {r}
    ensures Sum(Held(s1)) == Sum(Held(s)) - Held(s)[r] + Held(s1)[r]
  {
    assert Held(s1) == Held(s)[r := Held(s1)[r]] by {
      forall q | q in s.res && q != r
        ensures Held(s1)[q] == Held(s)[q]
      {
        assert q in s1.releasing - {r} <==> q in s.releasing - {r};
      }
    }
    SumUpdate(Held(s), r, Held(s1)[r]);
  }

  lemma HeldSame<R>(s: State<R>, s1: State<R>)
    requires s1.res == s.res && s1.releasing == s.releasing
    ensures Held(s1) == Held(s)
  {
  }

  lemma ReserveKeeps<R>(s: State<R>, r: R, n: nat)
    requires Inv(s) && r !in s.res && s.waker.Nobody?
    ensures Inv(Reserve(s, r, n))
  {
    var s1 := Reserve(s, r, n);
    assert Held(s1) == Held(s)[r := if n <= s.value then n else 0];
    SumUpdate(Held(s), r, if n <= s.value then n else 0);
    forall q | q in s1.res
      ensures ResOk(s1, q)
    {
      if q != r {
        assert ResOk(s, q);
      }
    }
  }

  lemma ReleaseOnceKeeps<R>(s: State<R>, r: R)
    requires Inv(s) && r in s.res && s.res[r].granted && !s.Locked(r)
    ensures Inv(ReleaseOnce(s, r))
  {
    var s1 := ReleaseOnce(s, r);
    if s1 != s {
      HeldUpdate(s, s1, r);
      forall q | q in s1.res
        ensures ResOk(s1, q)
      {
        assert ResOk(s, q);
      }
      assert QueueOk(s1);
    }
  }

  lemma CancelOnceKeeps<R>(s: State<R>, r: R)
    requires Inv(s) && r in s.res && !s.res[r].granted
    ensures Inv(CancelOnce(s, r))
  {
    var s1 := CancelOnce(s, r);
    if s1 != s {
      HeldUpdate(s, s1, r);
      forall q | q in s1.res
        ensures ResOk(s1, q)
      {
        assert ResOk(s, q);
      }
      assert QueueOk(s1);
    }
  }

  lemma AddValueKeeps<R>(s: State<R>, r: R)
    requires Inv(s) && r in s.releasing && s.waker.Nobody?
    ensures Inv(AddValue(s, r))
  {
    var s1 := AddValue(s, r);
    assert ResOk(s, r);
    HeldUpdate(s, s1, r);
    forall q | q in s1.res
      ensures ResOk(s1, q)
    {
      assert ResOk(s, q);
    }
  }

  lemma StartWakeKeeps<R>(s: State<R>)
    requires Inv(s) && s.wakes > 0 && s.waker.Nobody?
    ensures Inv(StartWake(s))
  {
    HeldSame(s, StartWake(s));
    forall q | q in s.res
      ensures ResOk(StartWake(s), q)
    {
      assert ResOk(s, q);
    }
  }

  lemma LookKeeps<R>(s: State<R>)
    requires Inv(s) && s.waker.Looking?
    ensures Inv(Look(s))
  {
    var s1 := Look(s);
    HeldSame(s, s1);
    forall q | q in s1.res
      ensures ResOk(s1, q)
    {
      assert ResOk(s, q);
      if q in s.waiting && q !in s1.waiting {
        assert q == s.waiting[0];
      }
    }
    assert QueueOk(s1);
  }

  /** The head that is to be granted is locked by nobody, so its mutex cannot make the limiter hang. */
  lemma HeadUnlocked<R>(s: State<R>)
    requires Inv(s) && s.waker.Trying?
    ensures s.waker.r in s.res && !s.Locked(s.waker.r) && !s.res[s.waker.r].granted
  {
    assert ResOk(s, s.waker.r);
    if s.waker.owner.Some? {
      assert ResOk(s, s.waker.owner.value);
    }
  }

  lemma WakeKeeps<R>(s: State<R>)
    requires Inv(s) && s.waker.Trying?
    ensures Inv(Wake(s))
  {
    var s1, r := Wake(s), s.waker.r;
    HeadUnlocked(s);
    HeldUpdate(s, s1, r);
    forall q | q in s1.res
      ensures ResOk(s1, q)
    {
      assert ResOk(s, q);
      if q in s.waiting && q !in s1.waiting {
        assert q == s.waiting[0];
      }
    }
    assert QueueOk(s1);
  }

  // ------------------------------------------------------------- whole runs

  datatype Event<R> =
    | Reserved(r: R, n: nat)
    | Released(r: R)
    | Cancelled(r: R)
    | Dropped(r: R)
    | Returned(r: R)    // a releaser gets the limiter's mutex
    | WakeStarted       // a goroutine gets it after a cancellation
    | Looked
    | Woke
  {
    /** Steps that go on by themselves once a call has been made. */
    predicate Internal() {
      Returned? || WakeStarted? || Looked? || Woke?
    }
  }

  /** A step can be taken when the mutexes it needs are free; only resolved reservations are released. */
  predicate Enabled<R(==)>(s: State<R>, e: Event<R>) {
    match e
    case Reserved(r, n) => r !in s.res && s.waker.Nobody?
    case Released(r) => r in s.res && !s.Locked(r) && (s.res[r].granted || s.res[r].cancelled)
    case Cancelled(r) => r in s.res && !s.Locked(r)
    case Dropped(r) => r in s.res && !s.Locked(r)
    case Returned(r) => r in s.releasing && r in s.res && s.waker.Nobody?
    case WakeStarted => s.wakes > 0 && s.waker.Nobody?
    case Looked => s.waker.Looking? && forall r | r in s.waiting :: r in s.res
    case Woke => s.waker.Trying? && s.waiting != [] && s.waker.r in s.res && !s.Locked(s.waker.r)
  }

  function Step<R(==)>(s: State<R>, e: Event<R>): Outcome<State<R>>
    requires Enabled(s, e)
  {
    match e
    case Reserved(r, n) => Done(Reserve(s, r, n))
    case Released(r) => Release(s, r)
    case Cancelled(r) => Done(Cancel(s, r).0)
    case Dropped(r) => Done(Drop(s, r))
    case Returned(r) => Done(AddValue(s, r))
    case WakeStarted => Done(StartWake(s))
    case Looked => Done(Look(s))
    case Woke => Done(Wake(s))
  }

  lemma StepKeeps<R>(s: State<R>, e: Event<R>)
    requires Inv(s) && Enabled(s, e)
    ensures Step(s, e).Done? && Inv(Step(s, e).value)
  {
    match e
    case Reserved(r, n) => ReserveKeeps(s, r, n);
    case Released(r) => if !s.res[r].cancelled { ReleaseOnceKeeps(s, r); }
    case Cancelled(r) => if !s.res[r].granted { CancelOnceKeeps(s, r); }
    case Dropped(r) => if s.res[r].granted { ReleaseOnceKeeps(s, r); } else { CancelOnceKeeps(s, r); }
    case Returned(r) => AddValueKeeps(s, r);
    case WakeStarted => StartWakeKeeps(s);
    case Looked => LookKeeps(s);
    case Woke => WakeKeeps(s);
  }

  /** The space of the reservation has been returned. */
  predicate Gone<R>(s: State<R>, r: R) {
    r in s.res && s.res[r].released && r !in s.releasing
  }

  /** What never changes back: sizes, flags, and returned space. */
  ghost predicate Later<R>(s: State<R>, t: State<R>) {
    && t.max == s.max
    && forall r | r in s.res ::
         && r in t.res
         && t.res[r].n == s.res[r].n
         && (s.res[r].granted ==> t.res[r].granted)
         && (s.res[r].cancelled ==> t.res[r].cancelled)
         && (s.res[r].released ==> t.res[r].released)
         && (Gone(s, r) ==> Gone(t, r))
  }

  lemma StepLater<R>(s: State<R>, e: Event<R>)
    requires Inv(s) && Enabled(s, e) && Step(s, e).Done?
    ensures Later(s, Step(s, e).value)
  {
  }

  ghost predicate Reaches<R>(s: State<R>, es: seq<Event<R>>, t: State<R>)
    decreases es
  {
    if es == [] then s == t
    else Enabled(s, es[0]) && Step(s, es[0]).Done? && Reaches(Step(s, es[0]).value, es[1..], t)
  }

  /** Over every interleaving the space is conserved and what was granted, cancelled or returned stays so. */
  lemma {:induction false} RunKeeps<R>(s: State<R>, es: seq<Event<R>>, t: State<R>)
    requires Inv(s) && Reaches(s, es, t)
    ensures Inv(t) && Later(s, t)
    decreases es
  {
    if es == [] {
    } else {
      StepKeeps(s, es[0]);
      StepLater(s, es[0]);
      RunKeeps(Step(s, es[0]).value, es[1..], t);
    }
  }

  /** No reservation gives its space back a second time. */
  lemma ReturnedOnce<R>(s: State<R>, r: R, es: seq<Event<R>>, t: State<R>)
    requires Inv(s) && Enabled(s, Returned(r)) && Reaches(AddValue(s, r), es, t)
    ensures !Enabled(t, Returned(r))
  {
    AddValueKeeps(s, r);
    assert ResOk(s, r);
    assert Gone(AddValue(s, r), r);
    RunKeeps(AddValue(s, r), es, t);
  }

  // ------------------------------------------------- what the calls do and answer

  /** A reservation that fits is granted at once; any other one goes to the end of the queue. */
  lemma ReserveDoes<R>(s: State<R>, r: R, n: nat)
    requires r !in s.res
    ensures var s1 := Reserve(s, r, n);
            && r in s1.res && s1.res == s.res[r := s1.res[r]] && s1.res[r].n == n
            && !s1.res[r].cancelled && !s1.res[r].released
            && (s1.res[r].granted <==> n <= s.value)
            && s1.waiting == (if n <= s.value then s.waiting else s.waiting + [r])
  {
  }

  /** A cancel answers whether it came before the grant, and then the reservation is cancelled. */
  lemma CancelAnswers<R>(s: State<R>, r: R)
    requires r in s.res
    ensures Cancel(s, r).1 <==> !s.res[r].granted
    ensures if Cancel(s, r).1 then r in Cancel(s, r).0.res && Cancel(s, r).0.res[r].cancelled else Cancel(s, r).0 == s
  {
  }

  /** A drop releases what is granted, and cancels what is not. */
  lemma DropDoes<R>(s: State<R>, r: R)
    requires r in s.res
    ensures r in Drop(s, r).res
    ensures if s.res[r].granted then Drop(s, r).res[r].released else Drop(s, r).res[r].cancelled
  {
  }

  /** A release of a granted reservation releases it, and of a cancelled one does nothing. */
  lemma ReleaseDoes<R>(s: State<R>, r: R)
    requires Inv(s) && r in s.res && Release(s, r).Done?
    ensures r in Release(s, r).value.res
    ensures if s.res[r].granted then Release(s, r).value.res[r].released else Release(s, r).value == s
  {
    assert ResOk(s, r);
  }

  /** What was cancelled, or dropped while it waited, is never granted. */
  lemma NeverGranted<R>(s: State<R>, r: R, s1: State<R>, es: seq<Event<R>>, t: State<R>)
    requires Inv(s) && r in s.res && !s.res[r].granted && (s1 == Cancel(s, r).0 || s1 == Drop(s, r))
    requires Reaches(s1, es, t)
    ensures r in t.res && t.res[r].cancelled && !t.res[r].granted
  {
    CancelAnswers(s, r);
    DropDoes(s, r);
    CancelOnceKeeps(s, r);
    RunKeeps(s1, es, t);
    assert ResOk(t, r);
  }

  /** What was released, or dropped once granted, has given its space back when all is quiet. */
  lemma SpaceComesBack<R>(s: State<R>, r: R, s1: State<R>, es: seq<Event<R>>, t: State<R>)
    requires Inv(s) && r in s.res && s.res[r].granted && !s.Locked(r)
    requires Release(s, r) == Done(s1) || s1 == Drop(s, r)
    requires Reaches(s1, es, t) && Quiet(t)
    ensures Gone(t, r) && !Holds(t, r)
  {
    assert ResOk(s, r);
    ReleaseDoes(s, r);
    DropDoes(s, r);
    ReleaseOnceKeeps(s, r);
    RunKeeps(s1, es, t);
  }

  /** The queue only loses its head, and only gets a new reservation at its end. */
  lemma QueueMoves<R>(s: State<R>, e: Event<R>)
    requires Enabled(s, e) && Step(s, e).Done?
    ensures var w := Step(s, e).value.waiting;
            || w == s.waiting
            || (s.waiting != [] && w == s.waiting[1..])
            || (e.Reserved? && w == s.waiting + [e.r])
  {
  }

  /** `a` is in line before `b`, or is not in line. */
  predicate InLine<R(==)>(waiting: seq<R>, a: R, b: R) {
    a in waiting ==> exists i, j :: 0 <= i < j < |waiting| && waiting[i] == a && waiting[j] == b
  }

  lemma StillInLine<R>(s: State<R>, e: Event<R>, a: R, b: R)
    requires Inv(s) && Enabled(s, e) && a in s.res && a != b && InLine(s.waiting, a, b)
    ensures Step(s, e).Done? && InLine(Step(s, e).value.waiting, a, b)
  {
    StepKeeps(s, e);
    QueueMoves(s, e);
    var w := Step(s, e).value.waiting;
    if a in w && w != s.waiting {
      assert a in s.waiting;
      var i, j :| 0 <= i < j < |s.waiting| && s.waiting[i] == a && s.waiting[j] == b;
      if w == s.waiting[1..] {
        assert i > 0;
        assert w[i - 1] == a && w[j - 1] == b;
      } else {
        assert w[i] == a && w[j] == b;
      }
    }
  }

  /** First come, first served: nobody in line is granted while one before it is neither granted nor cancelled. */
  lemma {:induction false} FirstComeFirstServed<R>(s: State<R>, es: seq<Event<R>>, t: State<R>, a: R, b: R)
    requires Inv(s) && Reaches(s, es, t) && a in s.res && a != b && InLine(s.waiting, a, b) && b in t.res
    ensures a in t.res
    ensures t.res[b].granted ==> t.res[a].granted || t.res[a].cancelled
    decreases es
  {
    if es == [] {
      assert ResOk(t, a) && ResOk(t, b);
    } else {
      StepKeeps(s, es[0]);
      StepLater(s, es[0]);
      StillInLine(s, es[0], a, b);
      FirstComeFirstServed(Step(s, es[0]).value, es[1..], t, a, b);
    }
  }

  /** A release panics exactly when the reservation is neither granted nor cancelled. */
  lemma ReleasePanicsIff<R>(s: State<R>, r: R)
    requires Inv(s) && r in s.res
    ensures Release(s, r).Panic? <==> r in s.waiting && !s.res[r].cancelled
  {
    assert ResOk(s, r);
  }

  // -------------------------------------------------------------- coming to rest

  predicate Quiet<R>(s: State<R>) {
    s.waker.Nobody? && s.wakes == 0 && s.releasing == {}
  }

  /** Without a wake pending, whoever is first in line is alive and does not fit. */
  lemma QuietMeans<R>(s: State<R>)
    requires Inv(s) && s.waker.Nobody? && s.wakes == 0
    ensures s.waiting == [] || (!s.res[s.waiting[0]].cancelled && !s.res[s.waiting[0]].granted &&
                                s.res[s.waiting[0]].n > s.value)
    ensures (forall r | r in s.res :: !Holds(s, r)) ==>
              s.value == s.max && (s.waiting == [] || s.res[s.waiting[0]].n > s.max)
  {
    if s.waiting != [] {
      assert ResOk(s, s.waiting[0]);
    }
    if forall r | r in s.res :: !Holds(s, r) {
      SumZero(Held(s));
    }
  }

  lemma {:induction false} SumZero<R>(m: map<R, int>)
    requires forall r | r in m :: m[r] == 0
    ensures Sum(m) == 0
    decreases |m|
  {
    if m == map[] {
    } else {
      var r :| r in m && Sum(m) == m[r] + Sum(m - {r});
      SumZero(m - {r});
    }
  }

  /** Unless all is quiet some internal step can be taken: no deadlock. */
  lemma SomeStep<R>(s: State<R>) returns (e: Event<R>)
    requires Inv(s) && !Quiet(s)
    ensures e.Internal() && Enabled(s, e)
  {
    match s.waker
    case Looking(_) => e := Looked;
    case Trying(_, _) =>
      HeadUnlocked(s);
      e := Woke;
    case Nobody =>
      if s.wakes > 0 {
        e := WakeStarted;
      } else {
        var r :| r in s.releasing;
        e := Returned(r);
      }
  }

  function Work<R>(s: State<R>): nat {
    3 * (|s.releasing| + s.wakes) + 2 * |s.waiting| +
    match s.waker { case Nobody => 0 case Looking(_) => 2 case Trying(_, _) => 1 }
  }

  lemma InternalWorks<R>(s: State<R>, e: Event<R>)
    requires Inv(s) && Enabled(s, e) && e.Internal()
    ensures Work(Step(s, e).value) < Work(s)
  {
  }

  /** Internal steps alone always come to an end, at the latest when the work is done. */
  lemma {:induction false} ComesToRest<R>(s: State<R>, es: seq<Event<R>>, t: State<R>)
    requires Inv(s) && Reaches(s, es, t) && forall e | e in es :: e.Internal()
    ensures |es| <= Work(s) - Work(t)
    decreases es
  {
    if es == [] {
    } else {
      assert es[0] in es;
      StepKeeps(s, es[0]);
      InternalWorks(s, es[0]);
      ComesToRest(Step(s, es[0]).value, es[1..], t);
    }
  }

  function Fresh<R>(max: nat): State<R> {
    State(max, max, [], map[], {}, 0, Nobody)
  }

  lemma FreshInv<R>(max: nat)
    ensures Inv(Fresh<R>(max))
  {
    SumZero(Held(Fresh<R>(max)));
  }

  // ------------------------------------------------------------ the wake loop

  ghost predicate Queued<R>(s: State<R>) {
    forall r | r in s.waiting :: r in s.res
  }

  /** What the holder of the limiter's mutex does until it lets go, if nobody comes between. */
  ghost function Drain<R>(s: State<R>): State<R>
    requires s.waker.Looking? && Queued(s)
    decreases |s.waiting|
  {
    if s.waiting == [] then Look(s)
    else if s.res[s.waiting[0]].cancelled then Drain(Look(s))
    else if s.res[s.waiting[0]].n <= s.value then Drain(Wake(Look(s)))
    else Look(s)
  }

  /** The loop is made of the steps above, and it leaves only a head that has to wait. */
  lemma {:induction false} DrainKeeps<R>(s: State<R>) returns (es: seq<Event<R>>)
    requires Inv(s) && s.waker.Looking?
    ensures Inv(Drain(s)) && Drain(s).waker.Nobody? && HeadStuck(Drain(s))
    ensures Reaches(s, es, Drain(s)) && forall e | e in es :: e == Looked || e == Woke
    decreases |s.waiting|
  {
    LookKeeps(s);
    var s1 := Look(s);
    if s.waiting == [] {
      OneStep(s, Looked);
      es := [Looked];
    } else if s.res[s.waiting[0]].cancelled {
      es := DrainKeeps(s1);
      FirstStep(s, Looked, es, Drain(s));
      es := [Looked] + es;
    } else if s.res[s.waiting[0]].n <= s.value {
      WakeKeeps(s1);
      HeadUnlocked(s1);
      es := DrainKeeps(Wake(s1));
      FirstStep(s1, Woke, es, Drain(s));
      FirstStep(s, Looked, [Woke] + es, Drain(s));
      es := [Looked] + ([Woke] + es);
    } else {
      OneStep(s, Looked);
      es := [Looked];
    }
  }

  lemma OneStep<R>(s: State<R>, e: Event<R>)
    requires Enabled(s, e) && Step(s, e).Done?
    ensures Reaches(s, [e], Step(s, e).value)
  {
    assert [e][1..] == [];
  }

  lemma FirstStep<R>(s: State<R>, e: Event<R>, es: seq<Event<R>>, t: State<R>)
    requires Enabled(s, e) && Step(s, e).Done? && Reaches(Step(s, e).value, es, t)
    ensures Reaches(s, [e] + es, t)
  {
    assert ([e] + es)[1..] == es;
  }
}
