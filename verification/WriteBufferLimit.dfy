/**
 * The write buffer fill up to which a request update is safe is exact: for every larger fill a run
 * leads from the empty torrent to a peer whose update panics.
 */
module WriteBufferLimit {
  import opened Common
  import opened RequestScheduler
  import opened RequestUpdates
  import opened SchedulerRuns

  /** An offer of chunk `k` that passes the checks. */
  function Plain(k: nat): Offer {
    Offer(k, false, 1, Checks(true, true, false, false))
  }

  /** Offers of the chunks `k .. n-1`. */
  function FirstOffers(k: nat, n: nat): seq<Offer>
    requires k <= n
    decreases n - k
  {
    if k == n then [] else [Plain(k)] + FirstOffers(k + 1, n)
  }

  lemma {:induction false} OffersAre(k: nat, n: nat)
    requires k <= n
    ensures OffersPass(FirstOffers(k, n)) && NoneFast(FirstOffers(k, n))
    decreases n - k
  {
    if k == n {
    } else {
      OffersAre(k + 1, n);
    }
  }

  lemma {:induction false} AllCandidates(me: PeerState, k: nat, n: nat)
    requires k <= n && !me.link.choking && me.book.cancelled == {}
    ensures Candidates(me, false, FirstOffers(k, n)) == FirstOffers(k, n)
    decreases n - k
  {
    if k == n {
    } else {
      AllCandidates(me, k + 1, n);
      assert FirstOffers(k, n)[1..] == FirstOffers(k + 1, n);
    }
  }

  // ----------------------------------------------------- one update of a lone peer

  /** The numbers below `k`. */
  function Firsts(k: nat): (xs: set<nat>)
    ensures |xs| == k && forall i: nat :: i in xs <==> i < k
  {
    if k == 0 then {} else Firsts(k - 1) + {k - 1}
  }

  lemma NextFirsts(k: nat)
    ensures Firsts(k + 1) == Firsts(k) + {k}
  {
  }

  /** An open connection that does not choke us and has been asked for the first `k` chunks. */
  predicate Asked(me: PeerState, k: nat) {
    && me.book.requests == Firsts(k) && me.book.cancelled == {}
    && me.active && !me.closed && !me.link.choking && !me.link.webseed
  }

  /** There is only this peer. */
  predicate Lone(s: Sched<int>, k: nat) {
    0 in s.peers && Asked(s.peers[0], k) && forall r | r in s.owner :: s.owner[r] == 0
  }

  /** The peer after `n` more requests. */
  predicate Sent(me: PeerState, me1: PeerState, n: int) {
    me.link.buffered + REQUEST_MSG_LEN * n >= 0 &&
    me1 == me.(book := me1.book, link := me.link.(buffered := me.link.buffered + REQUEST_MSG_LEN * n))
  }

  lemma RequestOne(owner: map<Req, int>, me: PeerState, k: nat)
    requires Asked(me, k) && k < me.NominalMaxRequests()
    ensures Request(owner, 0, me, Plain(k)).Done?
    ensures var (owner1, me1, more) := Request(owner, 0, me, Plain(k)).value;
            && owner1 == owner[k := 0] && Asked(me1, k + 1) && Sent(me, me1, 1)
            && (more <==> me.link.buffered + REQUEST_MSG_LEN < WRITE_BUFFER_HIGH_WATER)
  {
    NextFirsts(k);
  }

  lemma TakeOne(s: Sched<int>, k: nat) returns (s1: Sched<int>, more: bool)
    requires Lone(s, k) && k < s.peers[0].NominalMaxRequests()
    ensures HasRoom(s.peers[0]) && Take(s, 0, Plain(k), false) == Done((s1, more))
    ensures Lone(s1, k + 1) && Sent(s.peers[0], s1.peers[0], 1)
    ensures more <==> s.peers[0].link.buffered + REQUEST_MSG_LEN < WRITE_BUFFER_HIGH_WATER
  {
    RequestOne(s.owner, s.peers[0], k);
    var (owner1, me1, more1) := Request(s.owner, 0, s.peers[0], Plain(k)).value;
    TakeIs(s, 0, Plain(k), false, s, owner1, me1, more1);
    s1, more := Sched(owner1, s.peers[0 := me1]), more1;
  }

  lemma SentOnce(me: PeerState, me1: PeerState, me2: PeerState, n: nat)
    requires Sent(me, me1, 1) && Sent(me1, me2, n)
    ensures Sent(me, me2, n + 1)
  {
  }

  /** What the loop does with the offers from `k` on: all are requested if the messages fit, or else it panics. */
  ghost predicate Filled(s: Sched<int>, k: nat, n: nat, result: Outcome<Sched<int>>)
    requires k <= n && 0 in s.peers
  {
    if k == n || s.peers[0].link.buffered + REQUEST_MSG_LEN * (n - k) < WRITE_BUFFER_HIGH_WATER
    then result.Done? && Lone(result.value, n) && Sent(s.peers[0], result.value.peers[0], n - k)
    else result.Panic?
  }

  /** One round of the loop. */
  lemma FillOne(s: Sched<int>, o: Offer, rest: seq<Offer>, s1: Sched<int>, more: bool)
    requires 0 in s.peers && 0 in s1.peers && HasRoom(s.peers[0]) && Take(s, 0, o, false) == Done((s1, more))
    ensures Fill(s, 0, [o] + rest, {}) ==
            if more then Fill(s1, 0, rest, {}) else Panic("couldn't fill apply entire request state")
  {
    assert ([o] + rest)[1..] == rest;
  }

  lemma {:induction false} FillAll(s: Sched<int>, k: nat, n: nat)
    requires Lone(s, k) && k <= n <= s.peers[0].NominalMaxRequests()
    ensures Filled(s, k, n, Fill(s, 0, FirstOffers(k, n), {}))
    decreases n - k
  {
    if k == n {
      FillEnds(s, 0, FirstOffers(k, n), {});
    } else {
      var s1, more := TakeOne(s, k);
      FillOne(s, Plain(k), FirstOffers(k + 1, n), s1, more);
      if more {
        FillAll(s1, k + 1, n);
        FillMore(s, s1, k, n, Fill(s1, 0, FirstOffers(k + 1, n), {}));
      }
    }
  }

  lemma FillMore(s: Sched<int>, s1: Sched<int>, k: nat, n: nat, result: Outcome<Sched<int>>)
    requires k < n && 0 in s.peers && 0 in s1.peers && Sent(s.peers[0], s1.peers[0], 1)
    requires s1.peers[0].link.buffered < WRITE_BUFFER_HIGH_WATER && Filled(s1, k + 1, n, result)
    ensures Filled(s, k, n, result)
  {
    if result.Done? {
      SentOnce(s.peers[0], s1.peers[0], result.value.peers[0], n - k - 1);
    }
  }

  /** A peer that has no requests and is due for an update, its last one having made `peak` requests. */
  predicate Due(s: Sched<int>, peak: nat) {
    && Lone(s, 0) && s.peers[0].needUpdate && s.peers[0].peakRequests == peak
    && !s.peers[0].link.fast && s.peers[0].link.maxRequests == MAX_LOCAL_TO_REMOTE_REQUESTS
    && s.peers[0].link.interested == (peak > 0)
  }

  /** How many requests its update makes. */
  function Next(peak: nat): nat {
    Max(1, Min(peak * 2, MAX_LOCAL_TO_REMOTE_REQUESTS))
  }

  /** Its update makes them all, or panics if they do not fit in the buffer. */
  lemma DueUpdates(s: Sched<int>, peak: nat, offers: seq<Offer>)
    requires Due(s, peak) && offers == FirstOffers(0, Next(peak))
    requires peak > 0 || s.peers[0].link.buffered == 0
    ensures var fits := s.peers[0].link.buffered + REQUEST_MSG_LEN * Next(peak) < WRITE_BUFFER_HIGH_WATER;
            var result := Update(s, 0, offers, offers, {});
            && (fits ==> result.Done? && Lone(result.value, Next(peak)) &&
                         result.value.peers[0].peakRequests == Next(peak) &&
                         result.value.peers[0].link == s.peers[0].link.(
                           interested := true, buffered := result.value.peers[0].link.buffered))
            && (!fits ==> result.Panic?)
  {
    var me := s.peers[0].(link := SetInterested(s.peers[0].link, true));
    var s0 := s.(peers := s.peers[0 := me]);
    OffersAre(0, Next(peak));
    InterestingIff(offers);
    assert s.peers[0].book.requests == {};
    FillAll(s0, 0, Next(peak));
    DueApplies(s, s0, offers, Fill(s0, 0, offers, {}));
  }

  lemma DueApplies(s: Sched<int>, s0: Sched<int>, offers: seq<Offer>, filled: Outcome<Sched<int>>)
    requires 0 in s.peers && !s.peers[0].closed && s.peers[0].needUpdate && s.peers[0].book.requests == {}
    requires Interesting(offers) && (s.peers[0].link.interested || s.peers[0].link.buffered == 0)
    requires s0 == s.(peers := s.peers[0 := s.peers[0].(link := SetInterested(s.peers[0].link, true))])
    requires filled == Fill(s0, 0, offers, {}) && (filled.Done? ==> 0 in filled.value.peers)
    ensures filled.Panic? ==> Update(s, 0, offers, offers, {}).Panic?
    ensures filled.Done? ==>
              var me := filled.value.peers[0];
              Update(s, 0, offers, offers, {}) == Done(filled.value.(peers := filled.value.peers[0 :=
                me.(peakRequests := |me.book.requests|, needUpdate := false)]))
  {
  }

  // ------------------------------------------------------------ reachable states

  const EMPTY: Sched<int> := Sched(map[], map[])

  ghost predicate Leads(es: seq<Event<int>>, s: Sched<int>) {
    Runnable(EMPTY, es) && Run(EMPTY, es) == Done(s)
  }

  ghost predicate Reachable(s: Sched<int>) {
    exists es :: Leads(es, s)
  }

  lemma {:induction false} RunMore(s: Sched<int>, es: seq<Event<int>>, e: Event<int>, s1: Sched<int>)
    requires Runnable(s, es) && Run(s, es) == Done(s1) && Enabled(s1, e)
    ensures Runnable(s, es + [e]) && Run(s, es + [e]) == Step(s1, e)
    decreases es
  {
    if es == [] {
      assert ([e])[1..] == [];
      assert es + [e] == [e];
    } else {
      RunMore(Step(s, es[0]).value, es[1..], e, s1);
      assert (es + [e])[1..] == es[1..] + [e];
    }
  }

  lemma ReachMore(s: Sched<int>, e: Event<int>, s1: Sched<int>)
    requires Reachable(s) && Enabled(s, e) && Step(s, e) == Done(s1)
    ensures Reachable(s1)
  {
    var es :| Leads(es, s);
    RunMore(EMPTY, es, e, s);
    assert Leads(es + [e], s1);
  }

  lemma ReachableInv(s: Sched<int>)
    requires Reachable(s)
    ensures Inv(s, {})
  {
    var es :| Leads(es, s);
    RunKeeps(EMPTY, es);
  }

  /** A connection joins, unchokes us, and is due for its first update. */
  lemma FirstDue() returns (s: Sched<int>)
    ensures Reachable(s) && Due(s, 0) && s.peers[0].link.buffered == 0
  {
    var link := Link(false, false, MAX_LOCAL_TO_REMOTE_REQUESTS, false, true, 0, 0);
    assert Leads([], EMPTY);
    var s1 := Step(EMPTY, Join(0, link)).value;
    ReachMore(EMPTY, Join(0, link), s1);
    s := Unchoke(s1, 0, true);
    ReachMore(s1, Unchoked(0, true), s);
  }

  /** The list of the first `n` numbers. */
  function Listing(n: nat): (rs: seq<nat>)
    ensures |rs| == n && forall i | 0 <= i < n :: rs[i] == i
  {
    if n == 0 then [] else Listing(n - 1) + [n - 1]
  }

  lemma ListingLists(n: nat)
    ensures Lists(Listing(n), Firsts(n))
  {
    forall x | x in Firsts(n)
      ensures x in Listing(n)
    {
      assert Listing(n)[x] == x;
    }
  }

  /** A choke takes all requests from a peer without the fast extension. */
  lemma ChokeEmpties(s: Sched<int>, n: nat) returns (s1: Sched<int>)
    requires Reachable(s) && Lone(s, n) && !s.peers[0].link.fast
    ensures Reachable(s1) && 0 in s1.peers && (forall r | r in s1.owner :: s1.owner[r] == 0)
    ensures var me, me1 := s.peers[0], s1.peers[0];
            me1 == me.(book := me.book.(requests := {}), link := me.link.(choking := true),
                       needUpdate := me1.needUpdate)
  {
    ReachableInv(s);
    ListingLists(n);
    DeleteAllKeeps(s, 0, Listing(n));
    s1 := Choke(s, 0, Listing(n)).value;
    ReachMore(s, Choked(0, Listing(n)), s1);
  }

  /** An unchoke, a flush and a reason to update later. */
  lemma UnchokedDue(s: Sched<int>) returns (s1: Sched<int>)
    requires Reachable(s) && 0 in s.peers && s.peers[0].link.choking && s.peers[0].LowOnRequests()
    ensures Reachable(s1) && s1.owner == s.owner && 0 in s1.peers
    ensures s1.peers[0] ==
            s.peers[0].(needUpdate := true, link := s.peers[0].link.(choking := false, buffered := 0))
  {
    var unchoked := Unchoke(s, 0, true);
    ReachMore(s, Unchoked(0, true), unchoked);
    s1 := Step(unchoked, Buffered(0, 0)).value;
    ReachMore(unchoked, Buffered(0, 0), s1);
  }

  /** A peer that was asked for some chunks chokes and unchokes us, and is due again. */
  lemma DueAgain(s: Sched<int>, n: nat) returns (s1: Sched<int>)
    requires Reachable(s) && Lone(s, n) && n > 0 && s.peers[0].peakRequests == n && !s.peers[0].link.fast
    requires s.peers[0].link.interested && s.peers[0].link.maxRequests == MAX_LOCAL_TO_REMOTE_REQUESTS
    ensures Reachable(s1) && Due(s1, n) && s1.peers[0].link.buffered == 0
  {
    s1 := ChokeEmpties(s, n);
    s1 := UnchokedDue(s1);
    assert Firsts(0) == {};
  }

  lemma Grow(s: Sched<int>, peak: nat) returns (s1: Sched<int>)
    requires Reachable(s) && Due(s, peak) && s.peers[0].link.buffered == 0
    ensures Reachable(s1) && Due(s1, Next(peak)) && s1.peers[0].link.buffered == 0
  {
    var offers := FirstOffers(0, Next(peak));
    DueUpdates(s, peak, offers);
    OffersAre(0, Next(peak));
    AllCandidates(s.peers[0], 0, Next(peak));
    var updated := Update(s, 0, offers, offers, {}).value;
    ReachMore(s, Updated(0, false, offers, offers, {}), updated);
    s1 := DueAgain(updated, Next(peak));
  }

  /** From update to update the number of requests doubles, until a single update makes as many as there may be. */
  lemma {:induction false} GrowUp(s: Sched<int>, peak: nat) returns (s1: Sched<int>, peak1: nat)
    requires Reachable(s) && Due(s, peak) && s.peers[0].link.buffered == 0
    ensures Reachable(s1) && Due(s1, peak1) && Next(peak1) == MAX_LOCAL_TO_REMOTE_REQUESTS
    decreases MAX_LOCAL_TO_REMOTE_REQUESTS - peak
  {
    if Next(peak) == MAX_LOCAL_TO_REMOTE_REQUESTS {
      s1, peak1 := s, peak;
    } else {
      s1 := Grow(s, peak);
      s1, peak1 := GrowUp(s1, Next(peak));
    }
  }

  /** An update of the peer, with such offers, panics. */
  ghost predicate Panics(s: Sched<int>, offers: seq<Offer>) {
    && OffersPass(offers) && NoneFast(offers) && PopsOf(s, 0, false, offers, offers)
    && Update(s, 0, offers, offers, {}).Panic?
  }

  /**
   * Beyond SAFE_BUFFERED an update can panic, whatever the fill: the program does not hold an update back
   * when the buffer is above low water.
   */
  lemma FullerBufferPanics(buffered: nat) returns (s: Sched<int>, offers: seq<Offer>)
    requires buffered > SAFE_BUFFERED
    ensures Reachable(s) && 0 in s.peers && s.peers[0].link.buffered == buffered && Panics(s, offers)
  {
    var first := FirstDue();
    var grown, peak := GrowUp(first, 0);
    s := Step(grown, Buffered(0, buffered)).value;
    ReachMore(grown, Buffered(0, buffered), s);
    offers := FirstOffers(0, Next(peak));
    DueUpdates(s, peak, offers);
    OffersAre(0, Next(peak));
    AllCandidates(s.peers[0], 0, Next(peak));
  }
}
