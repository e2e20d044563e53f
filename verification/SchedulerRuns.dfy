/**
 * Safety of the request scheduler over whole runs: any number of peers, any interleaving of the
 * steps of RequestScheduler, any order in which candidates are popped and snapshots visited.
 */
module SchedulerRuns {
  import opened Common
  import opened RequestScheduler
  import opened RequestUpdates

  datatype Event<P> =
    | Join(p: P, link: Link)                                // a connection or webseed is added
    | Updated(p: P, baseline: bool, offers: seq<Offer>, pops: seq<Offer>, acks: set<Req>)
    | Unwanted(r: Req, ack: bool)                           // the piece of the request completed
    | Rejected(p: P, r: Req)
    | Received(p: P, r: Req, have: bool, now: int, ack: bool)
    | Choked(p: P, order: seq<Req>)
    | Unchoked(p: P, anyPending: bool)
    | Dropped(p: P, order: seq<Req>)
    | Closed(p: P)                                          // closed by its writer, still listed
    | WebseedClosed(p: P, order: seq<Req>, acks: set<Req>)
    | Prompted(p: P)                                        // any other reason to update
    | Buffered(p: P, bytes: nat)                            // the write buffer was flushed or filled
    | Limited(p: P, maxRequests: int)                       // the peer sent what it allows

  /** The peer a step is about, if it must exist already. */
  predicate Known<P(==)>(s: Sched<P>, e: Event<P>) {
    match e
    case Join(p, _) => p !in s.peers
    case Unwanted(_, _) => true
    case _ => e.p in s.peers
  }

  /** What the program guarantees about the arguments of a step. */
  ghost predicate Enabled<P>(s: Sched<P>, e: Event<P>) {
    Known(s, e) &&
    match e
    case Updated(p, baseline, offers, pops, _) =>
      OffersPass(offers) && NoneFast(offers) && PopsOf(s, p, baseline, offers, pops) &&
      (s.peers[p].link.webseed || s.peers[p].link.buffered <= SAFE_BUFFERED)
    case Choked(p, order) => Lists(order, s.peers[p].book.requests)
    case Dropped(p, order) => Lists(order, s.peers[p].book.requests)
    case WebseedClosed(p, order, _) => Lists(order, s.peers[p].book.requests)
    case _ => true
  }

  function Put<P(==)>(s: Sched<P>, p: P, owner: map<Req, P>, me: PeerState): Sched<P> {
    Sched(owner, s.peers[p := me])
  }

  function Step<P(==)>(s: Sched<P>, e: Event<P>): Outcome<Sched<P>>
    requires Known(s, e)
  {
    match e
    case Join(p, link) =>
      Done(Put(s, p, s.owner, PeerState(Book({}, {}, map[]), 0, false, true, false, link)))
    case Updated(p, _, offers, pops, acks) => Update(s, p, offers, pops, acks)
    case Unwanted(r, ack) => CancelRequest(s, r, ack)
    case Rejected(p, r) =>
      var (owner, me, _) :- Reject(s.owner, p, s.peers[p], r);
      Done(Put(s, p, owner, me))
    case Received(p, r, have, now, ack) =>
      var (s1, _) :- Receive(s, p, r, have, now, ack);
      Done(s1)
    case Choked(p, order) => Choke(s, p, order)
    case Unchoked(p, anyPending) => Done(Unchoke(s, p, anyPending))
    case Dropped(p, order) => Drop(s, p, order)
    case Closed(p) => Done(Put(s, p, s.owner, s.peers[p].(closed := true)))
    case WebseedClosed(p, order, acks) => CloseWebseed(s, p, order, acks)
    case Prompted(p) => Done(Put(s, p, s.owner, s.peers[p].UpdateRequests()))
    case Buffered(p, bytes) =>
      Done(Put(s, p, s.owner, s.peers[p].(link := s.peers[p].link.(buffered := bytes))))
    case Limited(p, maxRequests) =>
      Done(Put(s, p, s.owner, s.peers[p].(link := s.peers[p].link.(maxRequests := maxRequests))))
  }

  /** Every event is possible when its turn comes. */
  ghost predicate Runnable<P>(s: Sched<P>, es: seq<Event<P>>)
    decreases es
  {
    es == [] || (Enabled(s, es[0]) && (Step(s, es[0]).Done? ==> Runnable(Step(s, es[0]).value, es[1..])))
  }

  ghost function Run<P>(s: Sched<P>, es: seq<Event<P>>): Outcome<Sched<P>>
    requires Runnable(s, es)
    decreases es
  {
    if es == [] then Done(s)
    else
      var s1 :- Step(s, es[0]);
      Run(s1, es[1..])
  }

  lemma JoinKeeps<P>(s: Sched<P>, p: P, link: Link)
    requires Inv(s, {}) && p !in s.peers
    ensures Inv(Step(s, Join(p, link)).value, {})
  {
    var s1 := Step(s, Join(p, link)).value;
    forall q | q in s1.peers
      ensures Owns(s1.owner, q, s1.peers[q].book) && PeerInv(s1.peers[q], false)
    {
      if q != p {
        assert Owns(s.owner, q, s.peers[q].book) && PeerInv(s.peers[q], false);
      }
    }
  }

  lemma RejectKeeps<P>(s: Sched<P>, p: P, r: Req)
    requires Inv(s, {}) && p in s.peers
    ensures Reject(s.owner, p, s.peers[p], r).Done?
    ensures var (owner, me, valid) := Reject(s.owner, p, s.peers[p], r).value;
            Inv(Put(s, p, owner, me), {})
  {
    var me := s.peers[p];
    assert Owns(s.owner, p, me.book) && PeerInv(me, false);
    RejectDoes(s.owner, p, me, r);
    var (owner1, me1, valid) := Reject(s.owner, p, me, r).value;
    assert me.book.requests - me1.book.requests == me.book.requests * {r};
    ShrinkKeeps(s, p, owner1, me1, {});
  }

  /** A step that changes nothing of a peer but what is its own. */
  lemma OwnKeeps<P>(s: Sched<P>, p: P, me: PeerState)
    requires Inv(s, {}) && p in s.peers
    requires var link := s.peers[p].link.(buffered := me.link.buffered, maxRequests := me.link.maxRequests);
             me == s.peers[p].(closed := true) || me == s.peers[p].UpdateRequests() || me == s.peers[p].(link := link)
    ensures Inv(Put(s, p, s.owner, me), {})
  {
    assert PeerInv(s.peers[p], false);
    PeerChangeKeeps(s, p, me, {});
  }

  lemma StepKeeps<P>(s: Sched<P>, e: Event<P>)
    requires Inv(s, {}) && Enabled(s, e)
    ensures Step(s, e).Done? && Inv(Step(s, e).value, {})
  {
    match e
    case Join(p, link) => JoinKeeps(s, p, link);
    case Updated(p, baseline, offers, pops, acks) => UpdateKeeps(s, p, baseline, offers, pops, acks);
    case Unwanted(r, ack) => CancelRequestKeeps(s, r, ack, {});
    case Rejected(p, r) => RejectKeeps(s, p, r);
    case Received(p, r, have, now, ack) => ReceiveKeeps(s, p, r, have, now, ack);
    case Choked(p, order) => ChokeKeeps(s, p, order);
    case Unchoked(p, anyPending) => UnchokeKeeps(s, p, anyPending);
    case Dropped(p, order) => DropKeeps(s, p, order);
    case WebseedClosed(p, order, acks) => CloseWebseedKeeps(s, p, order, acks);
    case Closed(p) => OwnKeeps(s, p, s.peers[p].(closed := true));
    case Prompted(p) => OwnKeeps(s, p, s.peers[p].UpdateRequests());
    case Buffered(p, bytes) => OwnKeeps(s, p, s.peers[p].(link := s.peers[p].link.(buffered := bytes)));
    case Limited(p, limit) => OwnKeeps(s, p, s.peers[p].(link := s.peers[p].link.(maxRequests := limit)));
  }

  /** From a good state no panic is reachable, and the invariant holds after every run. */
  lemma {:induction false} RunKeeps<P>(s: Sched<P>, es: seq<Event<P>>)
    requires Inv(s, {}) && Runnable(s, es)
    ensures Run(s, es).Done? && Inv(Run(s, es).value, {})
    decreases es
  {
    if es == [] {
    } else {
      StepKeeps(s, es[0]);
      RunKeeps(Step(s, es[0]).value, es[1..]);
    }
  }

  lemma RunFromEmpty<P>(es: seq<Event<P>>, p: P, r: Req)
    requires Runnable(Sched(map[], map[]), es)
    ensures Run(Sched(map[], map[]), es).Done?
    ensures var s := Run(Sched(map[], map[]), es).value;
            p in s.peers ==>
              && ((r in s.owner && s.owner[r] == p) <==> r in s.peers[p].book.requests)
              && !(r in s.peers[p].book.requests && r in s.peers[p].book.cancelled)
              && s.peers[p].book.Expected(r) >= (if r in s.peers[p].book.requests then 1 else 0)
                                              + (if r in s.peers[p].book.cancelled then 1 else 0)
  {
    var s0: Sched<P> := Sched(map[], map[]);
    assert Inv(s0, {});
    RunKeeps(s0, es);
    var s := Run(s0, es).value;
    if p in s.peers {
      InvMeaning(s, p, r);
    }
  }
}
