/**
 * What the steps of the request scheduler leave behind, told in plain numbers and sets: the limits an
 * update respects, how far it goes, when it steals, and that nobody who runs out of requests is forgotten.
 */
module UpdateEffects {
  import opened Common
  import opened RequestScheduler
  import opened RequestUpdates
  import opened SchedulerRuns

  // ------------------------------------------------------------------ limits

  /** There is room for another request: one is always allowed, more only within all three limits. */
  lemma HasRoomIff(me: PeerState)
    ensures var n := |me.book.requests| + |me.book.cancelled|;
            HasRoom(me) <==> n < 1 || (n < me.link.maxRequests && n < 2 * me.peakRequests && n < 963)
  {
  }

  /** `n` requests are as many as the peer may have. */
  predicate AtLimit(me: PeerState, n: int) {
    n >= 1 && (n >= me.link.maxRequests || n >= 2 * me.peakRequests || n >= 963)
  }

  predicate WithinLimit(me: PeerState, n: int) {
    n <= 1 || (n <= me.link.maxRequests && n <= 2 * me.peakRequests && n <= 963)
  }

  /** When a request panics. */
  lemma RequestPanicsIff<P>(owner: map<Req, P>, p: P, me: PeerState, o: Offer)
    ensures Request(owner, p, me, o).Panic? <==>
            || !o.checks.valid || !o.checks.peerHas || o.checks.hashing || o.checks.queued
            || o.r in me.book.cancelled || !me.active || me.closed
            || (o.r !in me.book.requests &&
                ((me.link.choking && !o.allowedFast) || AtLimit(me, |me.book.requests|)))
  {
  }

  // --------------------------------------------------------------- the loop

  predicate Idle(me: PeerState) {
    me.book.requests == {} && me.book.cancelled == {}
  }

  /** A cancelled request costs a message and a notch of the peak; who has nothing left is due for an update. */
  lemma CancelEffect<P>(owner: map<Req, P>, p: P, me: PeerState, r: Req, acked: bool)
    requires Cancel(owner, p, me, r, acked).Done?
    ensures var me1 := Cancel(owner, p, me, r, acked).value.1;
            && me1.book.requests == me.book.requests - {r} && r in me.book.requests
            && me1.book.cancelled == me.book.cancelled + (if acked then {r} else {})
            && me1.peakRequests == me.peakRequests - 1
            && me1.link == me.link.(buffered := me.link.buffered + if me.link.webseed then 0 else 17)
            && me1.active == me.active && me1.closed == me.closed
            && (me1.needUpdate <==> me.needUpdate || Idle(me1))
  {
    assert !acked ==> me.book.cancelled + {} == me.book.cancelled;
  }

  /** Cancelling whoever has a request: it awaits an answer exactly if one is to come. */
  lemma CancelRequestEffect<P>(s: Sched<P>, r: Req, acked: bool)
    requires CancelRequest(s, r, acked).Done? && r in s.owner
    ensures var v, s1 := s.owner[r], CancelRequest(s, r, acked).value;
            && v in s.peers && v in s1.peers && r in s.peers[v].book.requests
            && s1.owner == s.owner - {r} && s1.peers == s.peers[v := s1.peers[v]]
            && s1.peers[v].book.requests == s.peers[v].book.requests - {r}
            && s1.peers[v].book.cancelled == s.peers[v].book.cancelled + (if acked then {r} else {})
  {
    CancelEffect(s.owner, s.owner[r], s.peers[s.owner[r]], r, acked);
  }

  /** Another peer lost requests to a set of them, and is due if that left it without any. */
  ghost predicate GaveUp(you: PeerState, you1: PeerState, to: set<Req>) {
    && you1.book.requests <= you.book.requests && you.book.requests - you1.book.requests <= to
    && you1.link == you.link.(buffered := you1.link.buffered) && you1.active == you.active && you1.closed == you.closed
    && (you.needUpdate ==> you1.needUpdate)
    && (!Idle(you) && Idle(you1) ==> you1.needUpdate)
  }

  /** Requests were added, and each chunk asked for is expected once more. */
  ghost predicate Asked(me: PeerState, me1: PeerState) {
    && me.book.requests <= me1.book.requests && me1.active == me.active && me1.closed == me.closed
    && me1.link == me.link.(buffered := me1.link.buffered, interested := me1.link.interested)
    && forall r: Req :: me1.book.Expected(r) ==
         me.book.Expected(r) + if r in me1.book.requests && r !in me.book.requests then 1 else 0
  }

  /** Requests went to `p`, some of them from other peers. */
  ghost predicate Moved<P>(s: Sched<P>, p: P, s1: Sched<P>) {
    && p in s.peers && s1.peers.Keys == s.peers.Keys && Asked(s.peers[p], s1.peers[p])
    && forall q | q in s.peers && q != p :: GaveUp(s.peers[q], s1.peers[q], s1.peers[p].book.requests)
  }

  lemma GaveUpTwice(you: PeerState, you1: PeerState, you2: PeerState, to1: set<Req>, to2: set<Req>)
    requires GaveUp(you, you1, to1) && GaveUp(you1, you2, to2) && to1 <= to2
    ensures GaveUp(you, you2, to2)
  {
    forall r | r in you.book.requests - you2.book.requests
      ensures r in to2
    {
      assert r in you.book.requests - you1.book.requests || r in you1.book.requests - you2.book.requests;
    }
  }

  lemma MovedTwice<P>(s: Sched<P>, p: P, s1: Sched<P>, s2: Sched<P>)
    requires Moved(s, p, s1) && Moved(s1, p, s2)
    ensures Moved(s, p, s2)
  {
    forall q | q in s.peers && q != p
      ensures GaveUp(s.peers[q], s2.peers[q], s2.peers[p].book.requests)
    {
      assert GaveUp(s.peers[q], s1.peers[q], s1.peers[p].book.requests);
      assert GaveUp(s1.peers[q], s2.peers[q], s2.peers[p].book.requests);
      GaveUpTwice(s.peers[q], s1.peers[q], s2.peers[q], s1.peers[p].book.requests, s2.peers[p].book.requests);
    }
  }

  /** Somebody else has the request, and is not so much better off that `p` may have it. */
  predicate Spared<P(==)>(s: Sched<P>, p: P, r: Req) {
    && p in s.peers && r in s.owner && s.owner[r] != p && s.owner[r] in s.peers
    && var mine, theirs := |s.peers[p].book.requests|, |s.peers[s.owner[r]].book.requests|;
       || mine >= theirs
       || (mine + 1 == theirs && s.peers[p].link.lastUseful < s.peers[s.owner[r]].link.lastUseful)
  }

  lemma PassesOverIff<P>(s: Sched<P>, p: P, r: Req)
    ensures PassesOver(s, p, r) <==> Spared(s, p, r)
  {
  }

  predicate Served<P(==)>(s: Sched<P>, p: P, r: Req) {
    p in s.peers && (r in s.peers[p].book.requests || Spared(s, p, r))
  }

  lemma Fewer<T>(a: set<T>, b: set<T>)
    requires a <= b
    ensures |a| <= |b|
  {
    assert b == a + (b - a);
  }

  /** A candidate that was passed over would be passed over at the end, too. */
  lemma ServedStays<P>(s: Sched<P>, p: P, s1: Sched<P>, r: Req)
    requires Inv(s, {p}) && Inv(s1, {p}) && Moved(s, p, s1) && Served(s, p, r)
    ensures Served(s1, p, r)
  {
    if r !in s1.peers[p].book.requests {
      var q := s.owner[r];
      assert GaveUp(s.peers[q], s1.peers[q], s1.peers[p].book.requests);
      assert r in s1.peers[q].book.requests;
      assert Owns(s1.owner, q, s1.peers[q].book);
      Fewer(s.peers[p].book.requests, s1.peers[p].book.requests);
      Fewer(s1.peers[q].book.requests, s.peers[q].book.requests);
    }
  }

  lemma RequestMoves<P>(s: Sched<P>, p: P, o: Offer)
    requires Inv(s, {p}) && p in s.peers && (o.r in s.owner ==> s.owner[o.r] == p)
    requires MayAsk(s.peers[p], o) && HasRoom(s.peers[p]) && BufferFits(s.peers[p])
    ensures Request(s.owner, p, s.peers[p], o).Done?
    ensures var (owner1, me, more) := Request(s.owner, p, s.peers[p], o).value;
            Moved(s, p, Sched(owner1, s.peers[p := me])) && o.r in me.book.requests
  {
    assert PeerInv(s.peers[p], true);
    RequestDoes(s.owner, p, s.peers[p], o);
    RequestAsks(s.owner, p, s.peers[p], o);
    var (owner1, me, more) := Request(s.owner, p, s.peers[p], o).value;
    AskedMoves(s, p, owner1, me);
  }

  lemma AskedMoves<P>(s: Sched<P>, p: P, owner1: map<Req, P>, me: PeerState)
    requires p in s.peers && Asked(s.peers[p], me)
    ensures Moved(s, p, Sched(owner1, s.peers[p := me]))
  {
  }

  lemma RequestAsks<P>(owner: map<Req, P>, p: P, me: PeerState, o: Offer)
    requires Request(owner, p, me, o).Done?
    ensures Asked(me, Request(owner, p, me, o).value.1) && o.r in Request(owner, p, me, o).value.1.book.requests
  {
  }

  /** A cancel takes from its owner what `p` then asks for. */
  lemma CancelMoves<P>(s: Sched<P>, p: P, r: Req, acked: bool, s1: Sched<P>)
    requires p in s.peers && r in s.owner && s.owner[r] in s.peers && s.owner[r] != p
    requires CancelRequest(s, r, acked) == Done(s1)
    ensures s1.peers.Keys == s.peers.Keys && s1.peers[p] == s.peers[p]
    ensures forall q | q in s.peers && q != p :: GaveUp(s.peers[q], s1.peers[q], {r})
  {
    CancelEffect(s.owner, s.owner[r], s.peers[s.owner[r]], r, acked);
  }

  lemma MovedAfter<P>(s: Sched<P>, p: P, r: Req, s1: Sched<P>, s2: Sched<P>)
    requires p in s.peers && s1.peers.Keys == s.peers.Keys && s1.peers[p] == s.peers[p]
    requires forall q | q in s.peers && q != p :: GaveUp(s.peers[q], s1.peers[q], {r})
    requires Moved(s1, p, s2) && r in s2.peers[p].book.requests
    ensures Moved(s, p, s2)
  {
    forall q | q in s.peers && q != p
      ensures GaveUp(s.peers[q], s2.peers[q], s2.peers[p].book.requests)
    {
      assert GaveUp(s.peers[q], s1.peers[q], {r});
      assert GaveUp(s1.peers[q], s2.peers[q], s2.peers[p].book.requests);
      GaveUpTwice(s.peers[q], s1.peers[q], s2.peers[q], {r}, s2.peers[p].book.requests);
    }
  }

  /** One round: the candidate is asked for, or its owner spared. */
  lemma TakeMoves<P>(s: Sched<P>, p: P, o: Offer, acked: bool, s1: Sched<P>)
    requires Inv(s, {p}) && p in s.peers
    requires MayAsk(s.peers[p], o) && HasRoom(s.peers[p]) && BufferFits(s.peers[p])
    requires Take(s, p, o, acked).Done? && s1 == Take(s, p, o, acked).value.0
    ensures Moved(s, p, s1) && (if Spared(s, p, o.r) then s1 == s else o.r in s1.peers[p].book.requests)
  {
    PassesOverIff(s, p, o.r);
    if !Spared(s, p, o.r) {
      var s0 := s;
      if o.r in s.owner && s.owner[o.r] != p {
        CancelRequestKeeps(s, o.r, acked, {p});
        s0 := CancelRequest(s, o.r, acked).value;
        CancelMoves(s, p, o.r, acked, s0);
      }
      RequestMoves(s0, p, o);
      var (owner, me, more) := Request(s0.owner, p, s0.peers[p], o).value;
      TakeIs(s, p, o, acked, s0, owner, me, more);
      if s0 != s {
        MovedAfter(s, p, o.r, s0, s1);
      }
    }
  }

  /**
   * A round takes a request from its owner if and only if that peer has at least two more, or one more
   * and did not get a useful chunk after this one did.
   */
  lemma StealsIff<P>(s: Sched<P>, p: P, o: Offer, acked: bool)
    requires Inv(s, {p}) && p in s.peers && o.r in s.owner && s.owner[o.r] != p
    requires MayAsk(s.peers[p], o) && HasRoom(s.peers[p]) && BufferFits(s.peers[p])
    ensures Take(s, p, o, acked).Done? && p in Take(s, p, o, acked).value.0.peers
    ensures var me, you := s.peers[p], s.peers[s.owner[o.r]];
            o.r in Take(s, p, o, acked).value.0.peers[p].book.requests <==>
            || |you.book.requests| >= |me.book.requests| + 2
            || (|you.book.requests| == |me.book.requests| + 1 && me.link.lastUseful >= you.link.lastUseful)
  {
    assert Owns(s.owner, p, s.peers[p].book);
    TakeKeeps(s, p, o, acked);
    TakeMoves(s, p, o, acked, Take(s, p, o, acked).value.0);
  }

  ghost predicate AllServed<P>(s: Sched<P>, p: P, pops: seq<Offer>) {
    forall o | o in pops :: Served(s, p, o.r)
  }

  lemma NobodyMoved<P>(s: Sched<P>, p: P)
    requires p in s.peers
    ensures Moved(s, p, s)
  {
  }

  /** One round and what comes after it. */
  lemma FillRound<P>(s: Sched<P>, p: P, pops: seq<Offer>, s1: Sched<P>, s2: Sched<P>)
    requires pops != [] && Moved(s, p, s1) && Moved(s1, p, s2) && Inv(s1, {p}) && Inv(s2, {p})
    requires Served(s1, p, pops[0].r) && (!HasRoom(s2.peers[p]) || AllServed(s2, p, pops[1..]))
    ensures Moved(s, p, s2) && (!HasRoom(s2.peers[p]) || AllServed(s2, p, pops))
  {
    MovedTwice(s, p, s1, s2);
    ServedStays(s1, p, s2, pops[0].r);
    if HasRoom(s2.peers[p]) {
      forall o | o in pops
        ensures Served(s2, p, o.r)
      {
        assert o == pops[0] || o in pops[1..];
      }
    }
  }

  /** The loop stops when there is no room, and not before every candidate is served. */
  lemma {:induction false} FillMoves<P>(s: Sched<P>, p: P, pops: seq<Offer>, acked: set<Req>)
    requires Filling(s, p, pops)
    ensures FillFine(s, p, Fill(s, p, pops, acked))
    ensures var s1 := Fill(s, p, pops, acked).value;
            Moved(s, p, s1) && (!HasRoom(s1.peers[p]) || AllServed(s1, p, pops))
    decreases pops
  {
    if pops == [] || !HasRoom(s.peers[p]) {
      FillEnds(s, p, pops, acked);
      FillKeeps(s, p, pops, acked);
      NobodyMoved(s, p);
    } else {
      assert pops[0..] == pops;
      FillStep(s, p, pops, 0, acked);
      var s1 := Take(s, p, pops[0], pops[0].r in acked).value.0;
      TakeMoves(s, p, pops[0], pops[0].r in acked, s1);
      FillingRest(s1, p, pops);
      FillMoves(s1, p, pops[1..], acked);
      var s2 := Fill(s1, p, pops[1..], acked).value;
      FineAfter(s, s1, p, Done(s2));
      FillRound(s, p, pops, s1, s2);
    }
  }

  // ------------------------------------------------------------ whole updates

  /** What an update of an open peer that is due leaves behind. */
  ghost predicate Leaves<P>(s: Sched<P>, p: P, offers: seq<Offer>, pops: seq<Offer>, s1: Sched<P>) {
    && Moved(s, p, s1)
    && var me, me1 := s.peers[p], s1.peers[p];
       var n := |me1.book.requests| + |me.book.cancelled|;
       && me1.book.cancelled == me.book.cancelled && !me1.needUpdate && me1.peakRequests == |me1.book.requests|
       && (me1.link.interested <==> offers != [])
       && me1.link.buffered == me.link.buffered + Written(me, me1)
       && (me1.book.requests == {} || WithinLimit(me, n))
       && (AtLimit(me, n) || AllServed(s1, p, pops))
  }

  /** The bytes an update puts in the buffer: five for a change of interest, 17 for a request. */
  function Written(me: PeerState, me1: PeerState): nat {
    if me.link.webseed then 0
    else (if me1.link.interested == me.link.interested then 0 else 5) + 17 * |me1.book.requests|
  }

  lemma StartMoves<P>(s: Sched<P>, p: P, me0: PeerState, s1: Sched<P>, me1: PeerState)
    requires p in s.peers && me0 == s.peers[p].(link := SetInterested(s.peers[p].link, me0.link.interested))
    requires Moved(s.(peers := s.peers[p := me0]), p, s1)
    requires me1 == s1.peers[p].(peakRequests := me1.peakRequests, needUpdate := false)
    ensures Moved(s, p, s1.(peers := s1.peers[p := me1]))
  {
    forall q | q in s.peers && q != p
      ensures GaveUp(s.peers[q], s1.peers[q], me1.book.requests)
    {
      assert GaveUp(s.(peers := s.peers[p := me0]).peers[q], s1.peers[q], s1.peers[p].book.requests);
    }
  }

  /** What became of a candidate is the same when the peak is taken. */
  lemma ServedSame<P>(s: Sched<P>, p: P, me: PeerState, r: Req)
    requires Served(s, p, r) && me == s.peers[p].(peakRequests := me.peakRequests, needUpdate := false)
    ensures Served(s.(peers := s.peers[p := me]), p, r)
  {
  }

  lemma LimitsAre(me: PeerState, me0: PeerState, me1: PeerState)
    requires me.book.requests == {} && me0 == me.(link := SetInterested(me.link, me0.link.interested)) && Grew(me0, me1)
    ensures var n := |me1.book.requests| + |me.book.cancelled|;
            && (me1.book.requests == {} || WithinLimit(me, n)) && (!HasRoom(me1) ==> AtLimit(me, n))
            && me1.link.buffered == me.link.buffered + Written(me, me1)
  {
    assert |me.book.requests| == 0;
    HasRoomIff(me1);
  }

  /**
   * An update of an open peer that is due stays within the limits, and goes on until it has reached one or
   * has served every candidate; any other update changes nothing.
   */
  lemma UpdateLeaves<P>(s: Sched<P>, p: P, baseline: bool, offers: seq<Offer>, pops: seq<Offer>, acked: set<Req>)
    requires Inv(s, {}) && OffersPass(offers) && NoneFast(offers) && PopsOf(s, p, baseline, offers, pops)
    requires s.peers[p].link.webseed || s.peers[p].link.buffered <= SAFE_BUFFERED
    ensures Update(s, p, offers, pops, acked).Done?
    ensures if s.peers[p].closed || !s.peers[p].needUpdate then Update(s, p, offers, pops, acked).value == s
            else Leaves(s, p, offers, pops, Update(s, p, offers, pops, acked).value)
  {
    var me := s.peers[p];
    if !me.closed && me.needUpdate {
      var me0 := me.(link := SetInterested(me.link, Interesting(offers)));
      StartKeeps(s, p, baseline, offers, pops, me0);
      InterestingIff(offers);
      var s0 := s.(peers := s.peers[p := me0]);
      FillMoves(s0, p, pops, acked);
      var s1 := Fill(s0, p, pops, acked).value;
      UpdateIs(s, p, offers, pops, acked, s0, s1);
      var me1 := s1.peers[p].(peakRequests := |s1.peers[p].book.requests|, needUpdate := false);
      FinishLeaves(s, p, offers, pops, me0, s1, me1);
    }
  }

  lemma FinishLeaves<P>(s: Sched<P>, p: P, offers: seq<Offer>, pops: seq<Offer>, me0: PeerState, s1: Sched<P>,
                        me1: PeerState)
    requires p in s.peers && s.peers[p].book.requests == {} && (me0.link.interested <==> offers != [])
    requires me0 == s.peers[p].(link := SetInterested(s.peers[p].link, me0.link.interested))
    requires Moved(s.(peers := s.peers[p := me0]), p, s1) && Grew(me0, s1.peers[p])
    requires !HasRoom(s1.peers[p]) || AllServed(s1, p, pops)
    requires me1 == s1.peers[p].(peakRequests := |s1.peers[p].book.requests|, needUpdate := false)
    ensures Leaves(s, p, offers, pops, s1.(peers := s1.peers[p := me1]))
  {
    StartMoves(s, p, me0, s1, me1);
    LimitsAre(s.peers[p], me0, s1.peers[p]);
    if HasRoom(s1.peers[p]) {
      forall o | o in pops
        ensures Served(s1.(peers := s1.peers[p := me1]), p, o.r)
      {
        ServedSame(s1, p, me1, o.r);
      }
    }
  }

  // ------------------------------------------------------- nobody is forgotten

  /** A valid reject costs a notch of the peak if it was for a request; who has nothing left is due. */
  lemma RejectEffect<P>(owner: map<Req, P>, p: P, me: PeerState, r: Req)
    requires Reject(owner, p, me, r).Done?
    ensures var (owner1, me1, valid) := Reject(owner, p, me, r).value;
            && (valid <==> r in me.book.requests || r in me.book.cancelled)
            && me1.peakRequests == me.peakRequests - (if r in me.book.requests then 1 else 0)
            && me1.link == me.link && me1.active == me.active && me1.closed == me.closed
            && (me1.needUpdate <==> me.needUpdate || (valid && Idle(me1)))
  {
  }

  /** A chunk that was asked for leaves the peak alone; who has nothing left is due. */
  lemma SettleEffect<P>(owner: map<Req, P>, p: P, me: PeerState, r: Req)
    requires Settle(owner, p, me, r).Done?
    ensures var (owner1, me1, intended) := Settle(owner, p, me, r).value;
            && (intended <==> r in me.book.requests || r in me.book.cancelled)
            && me1.peakRequests == me.peakRequests
            && me1.link == me.link && me1.active == me.active && me1.closed == me.closed
            && (me1.needUpdate <==> me.needUpdate || (intended && Idle(me1)))
            && (!intended ==> me1.book.requests == me.book.requests && me1.book.cancelled == me.book.cancelled)
  {
  }

  lemma WakeAllEffect<P>(peers: map<P, PeerState>, q: P)
    requires q in peers
    ensures WakeAll(peers).Keys == peers.Keys
    ensures WakeAll(peers)[q] == peers[q].(needUpdate := peers[q].needUpdate || (peers[q].active && Idle(peers[q])))
  {
  }

  /** An unchoke makes a peer due only if it choked us, has nothing left, and some piece may now be asked for. */
  lemma UnchokeEffect<P>(s: Sched<P>, p: P, anyPending: bool)
    requires p in s.peers
    ensures var me := s.peers[p];
            Unchoke(s, p, anyPending).peers[p] ==
            me.(link := me.link.(choking := false),
                needUpdate := me.needUpdate || (me.link.choking && anyPending && Idle(me)))
  {
  }

  /** Whoever loses its last request or cancel, and is still listed, is due for an update. */
  ghost predicate Noticed(me: PeerState, me1: PeerState) {
    !Idle(me) && Idle(me1) && me1.active ==> me1.needUpdate
  }

  ghost predicate AllNoticed<P>(s: Sched<P>, s1: Sched<P>) {
    forall p | p in s.peers :: p in s1.peers && Noticed(s.peers[p], s1.peers[p])
  }

  lemma UpdateNotices<P>(s: Sched<P>, p: P, baseline: bool, offers: seq<Offer>, pops: seq<Offer>, acked: set<Req>)
    requires Enabled(s, Updated(p, baseline, offers, pops, acked)) && Inv(s, {})
    ensures Update(s, p, offers, pops, acked).Done? && AllNoticed(s, Update(s, p, offers, pops, acked).value)
  {
    UpdateLeaves(s, p, baseline, offers, pops, acked);
    assert PeerInv(s.peers[p], false);
    var s1 := Update(s, p, offers, pops, acked).value;
    if s1 != s {
      forall q | q in s.peers && q != p
        ensures Noticed(s.peers[q], s1.peers[q])
      {
        assert GaveUp(s.peers[q], s1.peers[q], s1.peers[p].book.requests);
      }
    }
  }

  lemma CancelNotices<P>(s: Sched<P>, r: Req, acked: bool)
    requires CancelRequest(s, r, acked).Done?
    ensures AllNoticed(s, CancelRequest(s, r, acked).value)
  {
    if r in s.owner {
      CancelEffect(s.owner, s.owner[r], s.peers[s.owner[r]], r, acked);
    }
  }

  /** Only one peer changed. */
  lemma OneNoticed<P>(s: Sched<P>, p: P, s1: Sched<P>)
    requires p in s.peers && p in s1.peers && s1.peers == s.peers[p := s1.peers[p]]
    requires Noticed(s.peers[p], s1.peers[p])
    ensures AllNoticed(s, s1)
  {
  }

  /** A change to one peer that leaves its requests alone, after a step in which all were noticed. */
  lemma StillNoticed<P>(s: Sched<P>, s1: Sched<P>, p: P, me: PeerState)
    requires AllNoticed(s, s1) && p in s1.peers
    requires me.book == s1.peers[p].book && me.needUpdate == s1.peers[p].needUpdate && me.active == s1.peers[p].active
    ensures AllNoticed(s, s1.(peers := s1.peers[p := me]))
  {
  }

  lemma NoticedTwice<P>(s: Sched<P>, s1: Sched<P>, s2: Sched<P>)
    requires AllNoticed(s, s1) && AllNoticed(s1, s2)
    requires forall q | q in s1.peers && q in s2.peers :: s1.peers[q].needUpdate ==> s2.peers[q].needUpdate
    requires forall q | q in s1.peers && q in s2.peers :: s1.peers[q].active == s2.peers[q].active
    ensures AllNoticed(s, s2)
  {
    forall q | q in s.peers
      ensures q in s2.peers && Noticed(s.peers[q], s2.peers[q])
    {
      assert Noticed(s.peers[q], s1.peers[q]) && Noticed(s1.peers[q], s2.peers[q]);
    }
  }

  /** A cancel only adds to who is due. */
  lemma CancelAdds<P>(s: Sched<P>, r: Req, acked: bool)
    requires CancelRequest(s, r, acked).Done?
    ensures var s1 := CancelRequest(s, r, acked).value;
            forall q | q in s.peers :: q in s1.peers && s1.peers[q].active == s.peers[q].active
                                       && (s.peers[q].needUpdate ==> s1.peers[q].needUpdate)
  {
    if r in s.owner {
      CancelEffect(s.owner, s.owner[r], s.peers[s.owner[r]], r, acked);
    }
  }

  lemma AcceptNotices<P>(s: Sched<P>, s1: Sched<P>, p: P, r: Req, now: int, acked: bool)
    requires AllNoticed(s, s1) && p in s1.peers && s1.peers.Keys == s.peers.Keys && Accept(s1, p, r, now, acked).Done?
    ensures AllNoticed(s, Accept(s1, p, r, now, acked).value)
  {
    var me := s1.peers[p].(link := s1.peers[p].link.(lastUseful := now));
    var s2 := s1.(peers := s1.peers[p := me]);
    StillNoticed(s, s1, p, me);
    CancelNotices(s2, r, acked);
    CancelAdds(s2, r, acked);
    NoticedTwice(s, s2, CancelRequest(s2, r, acked).value);
  }

  lemma ReceiveNotices<P>(s: Sched<P>, p: P, r: Req, have: bool, now: int, acked: bool)
    requires Inv(s, {}) && p in s.peers && Receive(s, p, r, have, now, acked).Done?
    ensures AllNoticed(s, Receive(s, p, r, have, now, acked).value.0)
  {
    if s.peers[p].book.Expected(r) > 0 {
      SettleKeeps(s, p, r);
      SettleEffect(s.owner, p, s.peers[p], r);
      var (owner1, me, intended) := Settle(s.owner, p, s.peers[p], r).value;
      var s1 := Sched(owner1, s.peers[p := me]);
      OneNoticed(s, p, s1);
      if have {
        ReceiveIs(s, p, r, have, now, acked, s1, intended, s1);
      } else {
        AcceptKeeps(s1, p, r, now, acked);
        AcceptNotices(s, s1, p, r, now, acked);
        ReceiveIs(s, p, r, have, now, acked, s1, intended, Accept(s1, p, r, now, acked).value);
      }
    }
  }

  /** Everybody who can be woken and has nothing is. */
  lemma WokenNoticed<P>(s: Sched<P>, peers: map<P, PeerState>, s1: Sched<P>)
    requires s1.peers == WakeAll(peers) && peers.Keys == s.peers.Keys
    ensures AllNoticed(s, s1)
  {
    forall p | p in s.peers
      ensures p in s1.peers && Noticed(s.peers[p], s1.peers[p])
    {
      WakeAllEffect(peers, p);
    }
  }

  lemma DeleteAllNotices<P>(s: Sched<P>, p: P, order: seq<Req>)
    requires p in s.peers && DeleteAll(s, p, order).Done?
    ensures AllNoticed(s, DeleteAll(s, p, order).value)
  {
    if s.peers[p].book.requests != {} {
      var (owner1, book) := DeleteEach(s.owner, p, s.peers[p].book, order).value;
      WokenNoticed(s, s.peers[p := s.peers[p].(book := book)], DeleteAll(s, p, order).value);
    }
  }

  lemma CloseWebseedNotices<P>(s: Sched<P>, p: P, order: seq<Req>, acked: set<Req>)
    requires p in s.peers && CloseWebseed(s, p, order, acked).Done?
    ensures AllNoticed(s, CloseWebseed(s, p, order, acked).value)
  {
    if !s.peers[p].closed {
      var (owner1, me) := CancelEach(s.owner, p, s.peers[p].(closed := true), order, acked).value;
      WokenNoticed(s, s.peers[p := me], CloseWebseed(s, p, order, acked).value);
    }
  }

  lemma ChokeNotices<P>(s: Sched<P>, p: P, order: seq<Req>)
    requires p in s.peers && Choke(s, p, order).Done?
    ensures AllNoticed(s, Choke(s, p, order).value)
  {
    if !s.peers[p].link.choking {
      var s1 := s;
      if !s.peers[p].link.fast {
        DeleteAllNotices(s, p, order);
        s1 := DeleteAll(s, p, order).value;
      }
      StillNoticed(s, s1, p, s1.peers[p].(link := s1.peers[p].link.(choking := true)));
    }
  }

  lemma DropNotices<P>(s: Sched<P>, p: P, order: seq<Req>)
    requires Inv(s, {}) && p in s.peers && Lists(order, s.peers[p].book.requests)
    ensures Drop(s, p, order).Done? && AllNoticed(s, Drop(s, p, order).value)
  {
    GoneKeeps(s, p);
    DeleteAllKeeps(Gone(s, p), p, order);
    DeleteAllNotices(Gone(s, p), p, order);
    var s1 := Drop(s, p, order).value;
    assert !s1.peers[p].active;
    forall q | q in s.peers && q != p
      ensures Noticed(s.peers[q], s1.peers[q])
    {
      assert Noticed(Gone(s, p).peers[q], s1.peers[q]);
    }
  }

  lemma RejectNotices<P>(s: Sched<P>, p: P, r: Req)
    requires Inv(s, {}) && p in s.peers && Step(s, Rejected(p, r)).Done?
    ensures AllNoticed(s, Step(s, Rejected(p, r)).value)
  {
    RejectKeeps(s, p, r);
    RejectEffect(s.owner, p, s.peers[p], r);
    assert Owns(s.owner, p, s.peers[p].book) && PeerInv(s.peers[p], false);
    RejectDoes(s.owner, p, s.peers[p], r);
    OneNoticed(s, p, Step(s, Rejected(p, r)).value);
  }

  /** Steps that leave all requests alone. */
  lemma OwnNotices<P>(s: Sched<P>, e: Event<P>)
    requires Enabled(s, e) && (e.Unchoked? || e.Closed? || e.Prompted? || e.Buffered? || e.Limited?)
    ensures Step(s, e).Done? && AllNoticed(s, Step(s, e).value)
  {
    var s1 := Step(s, e).value;
    assert s1.peers[e.p].book == s.peers[e.p].book;
    assert s.peers[e.p := s.peers[e.p]] == s.peers;
    OneNoticed(s, e.p, s1);
  }

  /** No step of any peer forgets a peer that has run out of requests. */
  lemma StepNotices<P>(s: Sched<P>, e: Event<P>)
    requires Inv(s, {}) && Enabled(s, e)
    ensures Step(s, e).Done? && AllNoticed(s, Step(s, e).value)
  {
    StepKeeps(s, e);
    match e
    case Join(_, _) =>
    case Updated(p, baseline, offers, pops, acks) => UpdateNotices(s, p, baseline, offers, pops, acks);
    case Unwanted(r, ack) => CancelNotices(s, r, ack);
    case Rejected(p, r) => RejectNotices(s, p, r);
    case Received(p, r, have, now, ack) => ReceiveNotices(s, p, r, have, now, ack);
    case Choked(p, order) => ChokeNotices(s, p, order);
    case Dropped(p, order) => DropNotices(s, p, order);
    case WebseedClosed(p, order, acks) => CloseWebseedNotices(s, p, order, acks);
    case _ => OwnNotices(s, e);
  }

  // --------------------------------------------------------- what steps change

  /** The step is about peer `q`. */
  predicate About<P(==)>(e: Event<P>, q: P) {
    !e.Unwanted? && e.p == q
  }

  /** What a peer does and allows, when it was last useful and whether it is open change by its own steps. */
  ghost predicate FlagsRight<P>(e: Event<P>, q: P, me: PeerState, me1: PeerState) {
    var own := About(e, q);
    && me1.active == (me.active && !(own && e.Dropped?))
    && me1.closed == (me.closed || (own && (e.Dropped? || e.Closed? || e.WebseedClosed?)))
    && me1.link.choking == (if own && (e.Choked? || e.Unchoked?) then e.Choked? else me.link.choking)
    && me1.link.lastUseful == (if own && e.Received? && !e.have && me.book.Expected(e.r) > 0 then e.now
                               else me.link.lastUseful)
    && me1.link.interested == (if own && e.Updated? && me.needUpdate && !me.closed then e.offers != []
                               else me.link.interested)
    && me1.link.maxRequests == (if own && e.Limited? then e.maxRequests else me.link.maxRequests)
    && me1.link.webseed == me.link.webseed && me1.link.fast == me.link.fast
    && (me.needUpdate && !(own && e.Updated?) ==> me1.needUpdate)
  }

  ghost predicate AllFlags<P>(s: Sched<P>, e: Event<P>, s1: Sched<P>) {
    forall q | q in s.peers :: q in s1.peers && FlagsRight(e, q, s.peers[q], s1.peers[q])
  }

  /** At most the buffer and the reason to update change, apart from the books. */
  predicate SameFlags(me: PeerState, me1: PeerState) {
    && me1.link == me.link.(buffered := me1.link.buffered) && me1.active == me.active && me1.closed == me.closed
    && (me.needUpdate ==> me1.needUpdate)
  }

  ghost predicate AllSame<P>(s: Sched<P>, s1: Sched<P>) {
    forall q | q in s.peers :: q in s1.peers && SameFlags(s.peers[q], s1.peers[q])
  }

  lemma CancelSame<P>(s: Sched<P>, r: Req, acked: bool)
    requires CancelRequest(s, r, acked).Done?
    ensures AllSame(s, CancelRequest(s, r, acked).value)
  {
    if r in s.owner {
      CancelEffect(s.owner, s.owner[r], s.peers[s.owner[r]], r, acked);
    }
  }

  lemma {:induction false} CancelEachSame<P>(owner: map<Req, P>, p: P, me: PeerState, rs: seq<Req>, acked: set<Req>)
    requires CancelEach(owner, p, me, rs, acked).Done?
    ensures SameFlags(me, CancelEach(owner, p, me, rs, acked).value.1)
    decreases rs
  {
    if rs == [] {
    } else {
      CancelEffect(owner, p, me, rs[0], rs[0] in acked);
      var (owner1, me1) := Cancel(owner, p, me, rs[0], rs[0] in acked).value;
      CancelEachSame(owner1, p, me1, rs[1..], acked);
    }
  }

  lemma WakeSame<P>(s: Sched<P>, peers: map<P, PeerState>, s1: Sched<P>)
    requires s1.peers == WakeAll(peers) && AllSame(s, Sched(s1.owner, peers))
    ensures AllSame(s, s1)
  {
    forall q | q in s.peers
      ensures q in s1.peers && SameFlags(s.peers[q], s1.peers[q])
    {
      assert q in Sched(s1.owner, peers).peers;
      WakeAllEffect(peers, q);
    }
  }

  lemma DeleteAllSame<P>(s: Sched<P>, p: P, order: seq<Req>)
    requires p in s.peers && DeleteAll(s, p, order).Done?
    ensures AllSame(s, DeleteAll(s, p, order).value)
  {
    if s.peers[p].book.requests != {} {
      var (owner1, book) := DeleteEach(s.owner, p, s.peers[p].book, order).value;
      WakeSame(s, s.peers[p := s.peers[p].(book := book)], DeleteAll(s, p, order).value);
    }
  }

  lemma UpdateFlags<P>(s: Sched<P>, e: Event<P>)
    requires e.Updated? && Enabled(s, e) && Inv(s, {})
    ensures Step(s, e).Done? && AllFlags(s, e, Step(s, e).value)
  {
    UpdateLeaves(s, e.p, e.baseline, e.offers, e.pops, e.acks);
    var s1 := Step(s, e).value;
    if s1 != s {
      forall q | q in s.peers && q != e.p
        ensures q in s1.peers && FlagsRight(e, q, s.peers[q], s1.peers[q])
      {
        assert GaveUp(s.peers[q], s1.peers[q], s1.peers[e.p].book.requests);
      }
    }
  }

  /** Only `p` changes by more than its buffer and a reason to update; `me` is `p` with that change made. */
  ghost predicate OneChanged<P>(s: Sched<P>, p: P, me: PeerState, s1: Sched<P>) {
    && p in s.peers && AllSame(s.(peers := s.peers[p := me]), s1)
  }

  lemma FlagsFrom<P>(s: Sched<P>, e: Event<P>, p: P, me: PeerState, s1: Sched<P>)
    requires OneChanged(s, p, me, s1) && About(e, p) && !e.Updated? && FlagsRight(e, p, s.peers[p], me)
    ensures AllFlags(s, e, s1)
  {
    forall q | q in s.peers
      ensures q in s1.peers && FlagsRight(e, q, s.peers[q], s1.peers[q])
    {
      assert q in s.(peers := s.peers[p := me]).peers;
      assert SameFlags(s.(peers := s.peers[p := me]).peers[q], s1.peers[q]);
    }
  }

  lemma SameAfter<P>(s: Sched<P>, p: P, me: PeerState, me1: PeerState, s1: Sched<P>, s2: Sched<P>)
    requires p in s.peers && SameFlags(me, me1) && s1.peers == s.peers[p := me1] && AllSame(s1, s2)
    ensures OneChanged(s, p, me, s2)
  {
    forall q | q in s.peers
      ensures q in s2.peers && SameFlags(s.peers[p := me][q], s2.peers[q])
    {
      assert q in s1.peers;
      assert SameFlags(s1.peers[q], s2.peers[q]);
    }
  }

  lemma NobodyChanged<P>(s: Sched<P>)
    ensures AllSame(s, s)
  {
  }

  /** The peer a chunk comes from, once it is received. */
  function Thanked(me: PeerState, r: Req, have: bool, now: int): PeerState {
    if have || me.book.Expected(r) == 0 then me else me.(link := me.link.(lastUseful := now))
  }

  lemma ReceiveChanges<P>(s: Sched<P>, p: P, r: Req, have: bool, now: int, acked: bool)
    requires Inv(s, {}) && p in s.peers
    ensures Receive(s, p, r, have, now, acked).Done?
    ensures OneChanged(s, p, Thanked(s.peers[p], r, have, now), Receive(s, p, r, have, now, acked).value.0)
  {
    if s.peers[p].book.Expected(r) == 0 {
      assert s.peers[p := s.peers[p]] == s.peers;
      NobodyChanged(s);
    } else {
      SettleKeeps(s, p, r);
      SettleEffect(s.owner, p, s.peers[p], r);
      var (owner1, me, intended) := Settle(s.owner, p, s.peers[p], r).value;
      var s1 := Sched(owner1, s.peers[p := me]);
      if have {
        ReceiveIs(s, p, r, have, now, acked, s1, intended, s1);
        NobodyChanged(s1);
        SameAfter(s, p, s.peers[p], me, s1, s1);
      } else {
        AcceptKeeps(s1, p, r, now, acked);
        ReceiveIs(s, p, r, have, now, acked, s1, intended, Accept(s1, p, r, now, acked).value);
        AcceptChanges(s, s1, p, r, now, acked);
      }
    }
  }

  lemma AcceptChanges<P>(s: Sched<P>, s1: Sched<P>, p: P, r: Req, now: int, acked: bool)
    requires p in s.peers && p in s1.peers && s1.peers == s.peers[p := s1.peers[p]]
    requires SameFlags(s.peers[p], s1.peers[p]) && Accept(s1, p, r, now, acked).Done?
    ensures OneChanged(s, p, s.peers[p].(link := s.peers[p].link.(lastUseful := now)),
                       Accept(s1, p, r, now, acked).value)
  {
    var me := s.peers[p].(link := s.peers[p].link.(lastUseful := now));
    var me1 := s1.peers[p].(link := s1.peers[p].link.(lastUseful := now));
    var s2 := s1.(peers := s1.peers[p := me1]);
    CancelSame(s2, r, acked);
    SameAfter(s, p, me, me1, s2, CancelRequest(s2, r, acked).value);
  }

  lemma ReceiveFlags<P>(s: Sched<P>, e: Event<P>)
    requires e.Received? && Enabled(s, e) && Inv(s, {})
    ensures Step(s, e).Done? && AllFlags(s, e, Step(s, e).value)
  {
    ReceiveChanges(s, e.p, e.r, e.have, e.now, e.ack);
    FlagsFrom(s, e, e.p, Thanked(s.peers[e.p], e.r, e.have, e.now), Step(s, e).value);
  }

  lemma ChokeChanges<P>(s: Sched<P>, p: P, order: seq<Req>)
    requires p in s.peers && Choke(s, p, order).Done?
    ensures OneChanged(s, p, s.peers[p].(link := s.peers[p].link.(choking := true)), Choke(s, p, order).value)
  {
    if s.peers[p].link.choking {
      assert s.peers[p := s.peers[p]] == s.peers;
      NobodyChanged(s);
    } else {
      var s1 := s;
      if s.peers[p].link.fast {
        NobodyChanged(s);
      } else {
        DeleteAllSame(s, p, order);
        s1 := DeleteAll(s, p, order).value;
      }
      ChokedSame(s, s1, p);
    }
  }

  lemma ChokedSame<P>(s: Sched<P>, s1: Sched<P>, p: P)
    requires p in s.peers && p in s1.peers && AllSame(s, s1)
    ensures OneChanged(s, p, s.peers[p].(link := s.peers[p].link.(choking := true)),
                       s1.(peers := s1.peers[p := s1.peers[p].(link := s1.peers[p].link.(choking := true))]))
  {
    assert SameFlags(s.peers[p], s1.peers[p]);
  }

  lemma ChokeFlags<P>(s: Sched<P>, e: Event<P>)
    requires e.Choked? && Enabled(s, e) && Inv(s, {})
    ensures Step(s, e).Done? && AllFlags(s, e, Step(s, e).value)
  {
    StepKeeps(s, e);
    ChokeChanges(s, e.p, e.order);
    FlagsFrom(s, e, e.p, s.peers[e.p].(link := s.peers[e.p].link.(choking := true)), Step(s, e).value);
  }

  lemma DropFlags<P>(s: Sched<P>, e: Event<P>)
    requires e.Dropped? && Enabled(s, e) && Inv(s, {})
    ensures Step(s, e).Done? && AllFlags(s, e, Step(s, e).value)
  {
    StepKeeps(s, e);
    DeleteAllSame(Gone(s, e.p), e.p, e.order);
    FlagsFrom(s, e, e.p, s.peers[e.p].(closed := true, active := false), Step(s, e).value);
  }

  lemma CloseWebseedChanges<P>(s: Sched<P>, p: P, order: seq<Req>, acked: set<Req>)
    requires p in s.peers && CloseWebseed(s, p, order, acked).Done?
    ensures OneChanged(s, p, s.peers[p].(closed := true), CloseWebseed(s, p, order, acked).value)
  {
    if s.peers[p].closed {
      assert s.peers[p := s.peers[p]] == s.peers;
      NobodyChanged(s);
    } else {
      var me := s.peers[p].(closed := true);
      CancelEachSame(s.owner, p, me, order, acked);
      var (owner1, me1) := CancelEach(s.owner, p, me, order, acked).value;
      WakeSame(s.(peers := s.peers[p := me]), s.peers[p := me1], CloseWebseed(s, p, order, acked).value);
    }
  }

  lemma WebseedFlags<P>(s: Sched<P>, e: Event<P>)
    requires e.WebseedClosed? && Enabled(s, e) && Inv(s, {})
    ensures Step(s, e).Done? && AllFlags(s, e, Step(s, e).value)
  {
    StepKeeps(s, e);
    CloseWebseedChanges(s, e.p, e.order, e.acks);
    FlagsFrom(s, e, e.p, s.peers[e.p].(closed := true), Step(s, e).value);
  }

  lemma RejectFlags<P>(s: Sched<P>, e: Event<P>)
    requires e.Rejected? && Enabled(s, e) && Inv(s, {})
    ensures Step(s, e).Done? && AllFlags(s, e, Step(s, e).value)
  {
    StepKeeps(s, e);
    RejectEffect(s.owner, e.p, s.peers[e.p], e.r);
    var s1 := Step(s, e).value;
    NobodyChanged(s1);
    SameAfter(s, e.p, s.peers[e.p], s1.peers[e.p], s1, s1);
    FlagsFrom(s, e, e.p, s.peers[e.p], s1);
  }

  lemma UnwantedSame<P>(s: Sched<P>, e: Event<P>, s1: Sched<P>)
    requires e.Unwanted? && AllSame(s, s1)
    ensures AllFlags(s, e, s1)
  {
    forall q | q in s.peers
      ensures q in s1.peers && FlagsRight(e, q, s.peers[q], s1.peers[q])
    {
      assert SameFlags(s.peers[q], s1.peers[q]);
    }
  }

  lemma UnwantedFlags<P>(s: Sched<P>, e: Event<P>)
    requires e.Unwanted? && Enabled(s, e) && Inv(s, {})
    ensures Step(s, e).Done? && AllFlags(s, e, Step(s, e).value)
  {
    CancelRequestKeeps(s, e.r, e.ack, {});
    CancelSame(s, e.r, e.ack);
    UnwantedSame(s, e, CancelRequest(s, e.r, e.ack).value);
  }

  lemma OwnFlags<P>(s: Sched<P>, e: Event<P>)
    requires Enabled(s, e) && (e.Join? || e.Closed? || e.Prompted? || e.Buffered? || e.Limited? || e.Unchoked?)
    ensures Step(s, e).Done? && AllFlags(s, e, Step(s, e).value)
  {
  }

  /**
   * Each step changes what is known of a peer only as its own steps say, and a reason to update stays until
   * the peer updates.
   */
  lemma StepFlags<P>(s: Sched<P>, e: Event<P>)
    requires Inv(s, {}) && Enabled(s, e)
    ensures Step(s, e).Done? && AllFlags(s, e, Step(s, e).value)
  {
    match e
    case Updated(_, _, _, _, _) => UpdateFlags(s, e);
    case Received(_, _, _, _, _) => ReceiveFlags(s, e);
    case Choked(_, _) => ChokeFlags(s, e);
    case Dropped(_, _) => DropFlags(s, e);
    case WebseedClosed(_, _, _) => WebseedFlags(s, e);
    case Rejected(_, _) => RejectFlags(s, e);
    case Unwanted(_, _) => UnwantedFlags(s, e);
    case _ => OwnFlags(s, e);
  }

  /** The peer has something outstanding, is due for an update, or is no longer listed. */
  predicate Awake(me: PeerState) {
    !Idle(me) || me.needUpdate || !me.active
  }

  lemma StaysAwake<P>(e: Event<P>, q: P, me: PeerState, me1: PeerState)
    requires Awake(me) && Noticed(me, me1) && FlagsRight(e, q, me, me1) && !(e.Updated? && e.p == q)
    ensures Awake(me1)
  {
  }

  lemma StepAwake<P>(s: Sched<P>, e: Event<P>, q: P)
    requires Inv(s, {}) && Enabled(s, e) && q in s.peers && Awake(s.peers[q]) && !(e.Updated? && e.p == q)
    ensures Step(s, e).Done? && q in Step(s, e).value.peers && Awake(Step(s, e).value.peers[q])
  {
    StepNotices(s, e);
    StepFlags(s, e);
    StaysAwake(e, q, s.peers[q], Step(s, e).value.peers[q]);
  }

  /** Over every run, a peer that had something outstanding or was due stays so until it updates or is gone. */
  lemma {:induction false} RunAwake<P>(s: Sched<P>, es: seq<Event<P>>, q: P)
    requires Inv(s, {}) && Runnable(s, es) && q in s.peers && Awake(s.peers[q])
    requires forall e | e in es :: !(e.Updated? && e.p == q)
    ensures Run(s, es).Done? && q in Run(s, es).value.peers && Awake(Run(s, es).value.peers[q])
    decreases es
  {
    if es == [] {
    } else {
      StepKeeps(s, es[0]);
      StepAwake(s, es[0], q);
      RunAwake(Step(s, es[0]).value, es[1..], q);
    }
  }
}
