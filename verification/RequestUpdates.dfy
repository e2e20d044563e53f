/**
 * The request update of one peer: the fill-and-steal loop never hits a panic and respects the limits
 * it is meant to respect.
 */
module RequestUpdates {
  import opened Common
  import opened RequestScheduler

  // ----------------------------------------------------- what the loop keeps

  /** `p` takes over a request that nobody owns. */
  lemma GrowKeeps<P>(s: Sched<P>, p: P, r: Req, me: PeerState, busy: set<P>)
    requires Inv(s, busy) && p in s.peers && p in busy && r !in s.owner
    requires PeerInv(me, true) && me.book.requests == s.peers[p].book.requests + {r}
    ensures Inv(Sched(s.owner[r := p], s.peers[p := me]), busy)
  {
    var s1 := Sched(s.owner[r := p], s.peers[p := me]);
    forall q | q in s1.peers
      ensures Owns(s1.owner, q, s1.peers[q].book)
    {
      assert Owns(s.owner, q, s.peers[q].book);
    }
  }

  /** Enough of the write buffer is free for all requests that may still be made. */
  predicate BufferFits(me: PeerState) {
    me.link.webseed ||
    me.link.buffered + REQUEST_MSG_LEN * (me.NominalMaxRequests() - |me.book.requests|) < WRITE_BUFFER_HIGH_WATER
  }

  /** The peer may ask for the popped candidate now. */
  predicate MayAsk(me: PeerState, o: Offer) {
    !me.closed && me.active && o.checks.Pass() && Candidate(me, false, o)
  }

  /** Requests were only added, each costing one message, and nothing else of the peer changed. */
  ghost predicate Grew(me: PeerState, me1: PeerState) {
    && me.book.requests <= me1.book.requests
    && me1 == me.(book := me1.book, link := me.link.(buffered := me1.link.buffered))
    && me1.book.cancelled == me.book.cancelled
    && me1.link.buffered == me.link.buffered +
       (if me.link.webseed then 0 else REQUEST_MSG_LEN * (|me1.book.requests| - |me.book.requests|))
    && |me1.book.requests| + |me.book.cancelled| <=
       Max(|me.book.requests| + |me.book.cancelled|, me.NominalMaxRequests())
  }

  lemma RequestDoes<P>(owner: map<Req, P>, p: P, me: PeerState, o: Offer)
    requires PeerInv(me, true) && MayAsk(me, o) && HasRoom(me) && BufferFits(me)
    ensures Request(owner, p, me, o).Done?
    ensures var (owner1, me1, more) := Request(owner, p, me, o).value;
            && more && PeerInv(me1, true) && Grew(me, me1)
            && me1.book.requests == me.book.requests + {o.r}
            && owner1 == (if o.r in me.book.requests then owner else owner[o.r := p])
            && me1.book.Expected(o.r) ==
               me.book.Expected(o.r) + (if o.r in me.book.requests then 0 else 1)
  {
    if o.r in me.book.requests {
      assert me.book.requests + {o.r} == me.book.requests;
    }
  }

  /** What one round, or the whole loop, may do to the state. */
  ghost predicate FillFine<P>(s: Sched<P>, p: P, result: Outcome<Sched<P>>) {
    && result.Done?
    && Inv(result.value, {p})
    && result.value.peers.Keys == s.peers.Keys
    && p in s.peers && Grew(s.peers[p], result.value.peers[p])
  }

  lemma RequestKeeps<P>(s: Sched<P>, p: P, o: Offer)
    requires Inv(s, {p}) && p in s.peers && (o.r in s.owner ==> s.owner[o.r] == p)
    requires MayAsk(s.peers[p], o) && HasRoom(s.peers[p]) && BufferFits(s.peers[p])
    ensures Request(s.owner, p, s.peers[p], o).Done?
    ensures var (owner1, me, more) := Request(s.owner, p, s.peers[p], o).value;
            more && FillFine(s, p, Done(Sched(owner1, s.peers[p := me])))
  {
    var me := s.peers[p];
    assert Owns(s.owner, p, me.book) && PeerInv(me, true);
    RequestDoes(s.owner, p, me, o);
    if o.r in me.book.requests {
      assert s.peers[p := me] == s.peers;
    } else {
      GrowKeeps(s, p, o.r, Request(s.owner, p, me, o).value.1, {p});
    }
  }

  /** A round that does not pass over is a cancel, where somebody else is the owner, and a request. */
  lemma TakeIs<P>(s: Sched<P>, p: P, o: Offer, acked: bool, s1: Sched<P>, owner: map<Req, P>, me: PeerState, more: bool)
    requires p in s.peers && p in s1.peers && !PassesOver(s, p, o.r)
    requires if o.r in s.owner && s.owner[o.r] != p then CancelRequest(s, o.r, acked) == Done(s1) else s1 == s
    requires Request(s1.owner, p, s1.peers[p], o) == Done((owner, me, more))
    ensures Take(s, p, o, acked) == Done((Sched(owner, s1.peers[p := me]), more))
  {
  }

  /** What is fine for one state is fine for another that agrees with it on `p`. */
  lemma FineFor<P>(s: Sched<P>, s1: Sched<P>, p: P, result: Outcome<Sched<P>>)
    requires p in s.peers && s1.peers.Keys == s.peers.Keys && s1.peers[p] == s.peers[p] && FillFine(s1, p, result)
    ensures FillFine(s, p, result)
  {
  }

  lemma TakeKeeps<P>(s: Sched<P>, p: P, o: Offer, acked: bool)
    requires Inv(s, {p}) && p in s.peers
    requires MayAsk(s.peers[p], o) && HasRoom(s.peers[p]) && BufferFits(s.peers[p])
    ensures Take(s, p, o, acked).Done?
    ensures Take(s, p, o, acked).value.1 && FillFine(s, p, Done(Take(s, p, o, acked).value.0))
  {
    if !PassesOver(s, p, o.r) {
      var s1 := s;
      if o.r in s.owner && s.owner[o.r] != p {
        CancelRequestKeeps(s, o.r, acked, {p});
        s1 := CancelRequest(s, o.r, acked).value;
      }
      RequestKeeps(s1, p, o);
      var (owner, me, more) := Request(s1.owner, p, s1.peers[p], o).value;
      TakeIs(s, p, o, acked, s1, owner, me, more);
      FineFor(s, s1, p, Done(Sched(owner, s1.peers[p := me])));
    }
  }

  /** Growth keeps what the next rounds need. */
  lemma GrewKeeps(me: PeerState, me1: PeerState, pops: seq<Offer>)
    requires Grew(me, me1)
    requires BufferFits(me) && forall o | o in pops :: MayAsk(me, o)
    ensures BufferFits(me1) && forall o | o in pops :: MayAsk(me1, o)
  {
  }

  lemma GrewTwice(me: PeerState, me1: PeerState, me2: PeerState)
    requires Grew(me, me1) && Grew(me1, me2)
    ensures Grew(me, me2)
  {
  }

  lemma FillUnrolls<P>(s: Sched<P>, p: P, pops: seq<Offer>, acked: set<Req>, s1: Sched<P>)
    requires p in s.peers && pops != [] && HasRoom(s.peers[p]) && p in s1.peers
    requires Take(s, p, pops[0], pops[0].r in acked) == Done((s1, true))
    ensures Fill(s, p, pops, acked) == Fill(s1, p, pops[1..], acked)
  {
  }

  /** What holds whenever the loop is about to pop a candidate. */
  ghost predicate Filling<P>(s: Sched<P>, p: P, pops: seq<Offer>) {
    && Inv(s, {p}) && p in s.peers && (pops == [] || BufferFits(s.peers[p]))
    && forall o | o in pops :: MayAsk(s.peers[p], o)
  }

  lemma FillStep<P>(s: Sched<P>, p: P, pops: seq<Offer>, i: nat, acked: set<Req>)
    requires Filling(s, p, pops) && i < |pops| && HasRoom(s.peers[p])
    ensures Take(s, p, pops[i], pops[i].r in acked).Done?
    ensures var (s1, more) := Take(s, p, pops[i], pops[i].r in acked).value;
            && more && Filling(s1, p, pops)
            && Grew(s.peers[p], s1.peers[p]) && s1.peers.Keys == s.peers.Keys
            && Fill(s, p, pops[i..], acked) == Fill(s1, p, pops[i + 1..], acked)
  {
    TakeKeeps(s, p, pops[i], pops[i].r in acked);
    var s1 := Take(s, p, pops[i], pops[i].r in acked).value.0;
    GrewKeeps(s.peers[p], s1.peers[p], pops);
    FillUnrolls(s, p, pops[i..], acked, s1);
    assert pops[i..][1..] == pops[i + 1..];
  }

  lemma FillEnds<P>(s: Sched<P>, p: P, pops: seq<Offer>, acked: set<Req>)
    requires p in s.peers && (pops == [] || !HasRoom(s.peers[p]))
    ensures Fill(s, p, pops, acked) == Done(s)
  {
  }

  lemma FineAfter<P>(s: Sched<P>, s1: Sched<P>, p: P, result: Outcome<Sched<P>>)
    requires p in s.peers && s1.peers.Keys == s.peers.Keys && Grew(s.peers[p], s1.peers[p]) && FillFine(s1, p, result)
    ensures FillFine(s, p, result)
  {
    GrewTwice(s.peers[p], s1.peers[p], result.value.peers[p]);
  }

  lemma FillingRest<P>(s: Sched<P>, p: P, pops: seq<Offer>)
    requires Filling(s, p, pops) && pops != []
    ensures Filling(s, p, pops[1..])
  {
  }

  /** Whatever order the heap pops the candidates in, the loop ends without a panic and within bounds. */
  lemma {:induction false} FillKeeps<P>(s: Sched<P>, p: P, pops: seq<Offer>, acked: set<Req>)
    requires Filling(s, p, pops)
    ensures FillFine(s, p, Fill(s, p, pops, acked))
    decreases pops
  {
    if pops == [] || !HasRoom(s.peers[p]) {
      FillEnds(s, p, pops, acked);
    } else {
      FillStep(s, p, pops, 0, acked);
      var s1 := Take(s, p, pops[0], pops[0].r in acked).value.0;
      assert pops[0..] == pops;
      FillingRest(s1, p, pops);
      FillKeeps(s1, p, pops[1..], acked);
      FineAfter(s, s1, p, Fill(s1, p, pops[1..], acked));
    }
  }

  // ------------------------------------------------------- the whole update

  lemma {:induction false} CandidatesAre(me: PeerState, baseline: bool, offers: seq<Offer>, o: Offer)
    ensures o in Candidates(me, baseline, offers) <==>
            && o in offers && o.r !in me.book.cancelled && (baseline ==> o.availability <= 1)
            && (me.link.choking ==> o.allowedFast || o.r in me.book.requests)
  {
    if offers == [] {
    } else {
      CandidatesAre(me, baseline, offers[1..], o);
      assert offers == [offers[0]] + offers[1..];
    }
  }

  /** The largest write buffer fill at which an update is always safe. */
  const SAFE_BUFFERED := WRITE_BUFFER_HIGH_WATER - 1 - REQUEST_MSG_LEN * MAX_LOCAL_TO_REMOTE_REQUESTS

  /** No offer is for a piece that is allowed fast: the program never records one. */
  ghost predicate NoneFast(offers: seq<Offer>) {
    forall o | o in offers :: !o.allowedFast
  }

  lemma InterestingIff(offers: seq<Offer>)
    requires NoneFast(offers)
    ensures Interesting(offers) <==> offers != []
  {
    if offers != [] {
      assert !offers[0].allowedFast;
    }
  }

  /** No offer is for a chunk that does not exist, a piece the peer lacks, or one that is hashed or queued. */
  ghost predicate OffersPass(offers: seq<Offer>) {
    forall o | o in offers :: o.checks.Pass()
  }

  /** `pops` is what the heap yields for the offers, in any order. */
  ghost predicate PopsOf<P>(s: Sched<P>, p: P, baseline: bool, offers: seq<Offer>, pops: seq<Offer>) {
    p in s.peers && multiset(pops) == multiset(Candidates(s.peers[p], baseline, offers))
  }

  /** An update ends with all limits respected: requests, cancels, and the write buffer. */
  ghost predicate UpdateFine<P>(s: Sched<P>, p: P, result: Outcome<Sched<P>>) {
    && result.Done?
    && Inv(result.value, {})
    && result.value.peers.Keys == s.peers.Keys
    && p in s.peers
    && (s.peers[p].needUpdate && !s.peers[p].closed ==> UpdatedWell(s.peers[p], result.value.peers[p]))
  }

  ghost predicate UpdatedWell(me: PeerState, me1: PeerState) {
    && !me1.needUpdate && me1.peakRequests == |me1.book.requests|
    && me1.book.cancelled == me.book.cancelled
    && |me1.book.requests| + |me.book.cancelled| <= Max(|me.book.cancelled|, me.NominalMaxRequests())
    && (!me.link.webseed ==> me1.link.buffered < WRITE_BUFFER_HIGH_WATER)
  }

  /** The end of an update: the peak is taken and the reason cleared. */
  lemma FinishKeeps<P>(s: Sched<P>, p: P, me: PeerState)
    requires Inv(s, {p}) && p in s.peers && (s.peers[p].link.interested || s.peers[p].book.requests == {})
    requires me == s.peers[p].(peakRequests := |s.peers[p].book.requests|, needUpdate := false)
    ensures Inv(s.(peers := s.peers[p := me]), {})
  {
    assert PeerInv(s.peers[p], true);
    PeerChangeKeeps(s, p, me, {p});
  }

  /** The news of our interest, and the requests that may follow it, fit in the buffer. */
  lemma InterestFits(me: PeerState, interested: bool)
    requires PeerInv(me, false) && me.needUpdate && (me.link.webseed || me.link.buffered <= SAFE_BUFFERED)
    ensures var me0 := me.(link := SetInterested(me.link, interested));
            !me0.link.BufferFull() && me0.book.requests == {} && PeerInv(me0, true) && (interested ==> BufferFits(me0))
  {
    assert |me.book.requests| == 0;
  }

  lemma NoPops<P>(s: Sched<P>, p: P, baseline: bool, offers: seq<Offer>, pops: seq<Offer>)
    requires PopsOf(s, p, baseline, offers, pops) && offers == []
    ensures pops == []
  {
    assert |pops| == |multiset(pops)| == 0;
  }

  lemma PopsMayAsk<P>(s: Sched<P>, p: P, baseline: bool, offers: seq<Offer>, pops: seq<Offer>, o: Offer)
    requires OffersPass(offers) && PopsOf(s, p, baseline, offers, pops) && o in pops
    requires !s.peers[p].closed && s.peers[p].active
    ensures MayAsk(s.peers[p], o)
  {
    assert o in multiset(pops);
    CandidatesAre(s.peers[p], baseline, offers, o);
  }

  /** The state in which the loop starts. */
  lemma StartKeeps<P>(s: Sched<P>, p: P, baseline: bool, offers: seq<Offer>, pops: seq<Offer>, me: PeerState)
    requires Inv(s, {}) && OffersPass(offers) && NoneFast(offers) && PopsOf(s, p, baseline, offers, pops)
    requires !s.peers[p].closed && s.peers[p].needUpdate
    requires s.peers[p].link.webseed || s.peers[p].link.buffered <= SAFE_BUFFERED
    requires me == s.peers[p].(link := SetInterested(s.peers[p].link, Interesting(offers)))
    ensures Filling(s.(peers := s.peers[p := me]), p, pops)
    ensures !me.link.BufferFull() && me.book.requests == {} && (me.link.interested || pops == [])
  {
    assert PeerInv(s.peers[p], false);
    InterestFits(s.peers[p], Interesting(offers));
    InterestingIff(offers);
    if offers == [] {
      NoPops(s, p, baseline, offers, pops);
    }
    PeerChangeKeeps(s, p, me, {p});
    forall o | o in pops
      ensures MayAsk(me, o)
    {
      PopsMayAsk(s, p, baseline, offers, pops, o);
    }
  }

  /** The peer is open, due and without requests, and has been told of our interest. */
  ghost predicate Started<P>(s: Sched<P>, p: P, offers: seq<Offer>, s0: Sched<P>) {
    && p in s.peers && !s.peers[p].closed && s.peers[p].needUpdate && s.peers[p].book.requests == {}
    && var link := SetInterested(s.peers[p].link, Interesting(offers));
       !link.BufferFull() && s0 == s.(peers := s.peers[p := s.peers[p].(link := link)])
  }

  /** An update whose loop ends well is the loop followed by its finish. */
  lemma UpdateIs<P>(s: Sched<P>, p: P, offers: seq<Offer>, pops: seq<Offer>, acked: set<Req>,
                    s0: Sched<P>, s1: Sched<P>)
    requires Started(s, p, offers, s0) && p in s1.peers && Fill(s0, p, pops, acked) == Done(s1)
    ensures var me1 := s1.peers[p].(peakRequests := |s1.peers[p].book.requests|, needUpdate := false);
            Update(s, p, offers, pops, acked) == Done(s1.(peers := s1.peers[p := me1]))
  {
  }

  lemma GrewWell(me: PeerState, me0: PeerState, me1: PeerState)
    requires me.book.requests == {} && me0 == me.(link := me0.link)
    requires me0.NominalMaxRequests() == me.NominalMaxRequests()
    requires me0.link.webseed == me.link.webseed && !me0.link.BufferFull() && Grew(me0, me1)
    requires BufferFits(me0) || me1.book.requests == {}
    ensures UpdatedWell(me, me1.(peakRequests := |me1.book.requests|, needUpdate := false))
  {
    assert |me.book.requests| == 0;
  }

  /** Without candidates the loop leaves the peer as it is; otherwise there was room for its requests. */
  lemma FillResult<P>(s: Sched<P>, p: P, pops: seq<Offer>, acked: set<Req>)
    requires Filling(s, p, pops) && s.peers[p].book.requests == {} && (s.peers[p].link.interested || pops == [])
    ensures FillFine(s, p, Fill(s, p, pops, acked))
    ensures var me1 := Fill(s, p, pops, acked).value.peers[p];
            && (BufferFits(s.peers[p]) || me1.book.requests == {})
            && (me1.link.interested || me1.book.requests == {})
  {
    FillKeeps(s, p, pops, acked);
    if pops == [] {
      FillEnds(s, p, pops, acked);
    }
  }

  lemma FinishFine<P>(s: Sched<P>, p: P, me0: PeerState, s1: Sched<P>, me1: PeerState)
    requires p in s.peers && s.peers[p].book.requests == {} && !me0.link.BufferFull()
    requires me0 == s.peers[p].(link := SetInterested(s.peers[p].link, me0.link.interested))
    requires FillFine(s.(peers := s.peers[p := me0]), p, Done(s1))
    requires BufferFits(me0) || s1.peers[p].book.requests == {}
    requires s1.peers[p].link.interested || s1.peers[p].book.requests == {}
    requires me1 == s1.peers[p].(peakRequests := |s1.peers[p].book.requests|, needUpdate := false)
    ensures UpdateFine(s, p, Done(s1.(peers := s1.peers[p := me1])))
  {
    GrewWell(s.peers[p], me0, s1.peers[p]);
    FinishKeeps(s1, p, me1);
  }

  /** An update of any open peer, over whatever the other peers own, ends well. */
  lemma UpdateKeeps<P>(s: Sched<P>, p: P, baseline: bool, offers: seq<Offer>, pops: seq<Offer>, acked: set<Req>)
    requires Inv(s, {}) && OffersPass(offers) && NoneFast(offers) && PopsOf(s, p, baseline, offers, pops)
    requires s.peers[p].link.webseed || s.peers[p].link.buffered <= SAFE_BUFFERED
    ensures UpdateFine(s, p, Update(s, p, offers, pops, acked))
  {
    var me := s.peers[p];
    if !me.closed && me.needUpdate {
      var me0 := me.(link := SetInterested(me.link, Interesting(offers)));
      StartKeeps(s, p, baseline, offers, pops, me0);
      var s0 := s.(peers := s.peers[p := me0]);
      FillResult(s0, p, pops, acked);
      var s1 := Fill(s0, p, pops, acked).value;
      UpdateIs(s, p, offers, pops, acked, s0, s1);
      FinishFine(s, p, me0, s1, s1.peers[p].(peakRequests := |s1.peers[p].book.requests|, needUpdate := false));
    }
  }
}
