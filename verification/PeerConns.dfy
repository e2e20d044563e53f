/**
 * The peers and the torrent as objects that update their fields in place.  Every method is tied to
 * the step of RequestScheduler of the same name; the program's panics are assertions here.
 */
module PeerConns {
  import opened Common
  import opened RequestScheduler
  import opened RequestUpdates

  class Torrent {
    var requestState: map<Req, Peer>
    var conns: set<Peer>              // the active connections and webseeds
    ghost var all: set<Peer>          // these and the ones taken out again

    constructor ()
      ensures requestState == map[] && conns == {} && all == {}
      ensures Valid()
    {
      requestState, conns, all := map[], {}, {};
    }

    /** The bookkeeping of all peers as one value. */
    ghost function View(): Sched<Peer>
      reads this, all
    {
      Sched(requestState, map p | p in all :: p.State(conns))
    }

    ghost predicate Listed()
      reads this, all
    {
      conns <= all && forall p | p in all :: p.t == this
    }

    ghost predicate Valid()
      reads this, all
    {
      Listed() && Inv(View(), {})
    }

    /** One peer, and with it the ownership map, changed. */
    twostate lemma ViewAfter(q: Peer)
      requires old(Listed()) && all == old(all) && conns == old(conns) && q in all
      requires forall p | p in all && p != q :: unchanged(p)
      ensures View() == Sched(requestState, old(View()).peers[q := q.State(conns)])
    {
    }

    method CancelRequest(r: Req, acked: bool, ghost busy: set<Peer>)
      requires Listed() && Inv(View(), busy)
      modifies this`requestState, all
      ensures Listed()
      ensures RequestScheduler.CancelRequest(old(View()), r, acked) == Done(View())
    {
      if r in requestState {
        var q := requestState[r];
        assert Owns(requestState, q, View().peers[q].book) && PeerInv(View().peers[q], q in busy);
        q.Cancel(r, acked, q in busy);
        ViewAfter(q);
      }
      assert r !in requestState;
    }

    /** Give every active peer that is low on requests a reason to update. */
    method WakeAll()
      requires Listed()
      modifies all
      ensures Listed()
      ensures View() == Sched(old(requestState), RequestScheduler.WakeAll(old(View().peers)))
    {
      var todo := conns;
      while todo != {}
        invariant todo <= conns
        invariant View().peers.Keys == old(View().peers).Keys
        invariant forall p | p in all ::
            View().peers[p] == if p in conns && p !in todo then old(View().peers)[p].UpdateRequests()
                               else old(View().peers)[p]
      {
        var p :| p in todo;
        p.UpdateRequests();
        todo := todo - {p};
      }
    }
  }

  class Peer {
    const t: Torrent
    var requests: set<Req>
    var cancelled: set<Req>
    var validReceiveChunks: map<Req, nat>
    var peakRequests: int
    var needRequestUpdate: bool
    var closed: bool
    var link: Link

    constructor (t: Torrent, link: Link)
      ensures this.t == t && Book() == RequestScheduler.Book({}, {}, map[])
      ensures !needRequestUpdate && !closed && peakRequests == 0 && this.link == link
    {
      this.t, this.link := t, link;
      requests, cancelled, validReceiveChunks := {}, {}, map[];
      peakRequests, needRequestUpdate, closed := 0, false, false;
    }

    ghost function Book(): Book
      reads this
    {
      RequestScheduler.Book(requests, cancelled, validReceiveChunks)
    }

    ghost function State(conns: set<Peer>): PeerState
      reads this
    {
      PeerState(Book(), peakRequests, needRequestUpdate, this in conns, closed, link)
    }

    /** How many requests may be out at a time. */
    function NominalMaxRequests(): int
      reads this
    {
      Max(1, Min(link.maxRequests, Min(peakRequests * 2, MAX_LOCAL_TO_REMOTE_REQUESTS)))
    }

    /** Set a reason to update the requests, unless there is one or requests are outstanding. */
    method UpdateRequests()
      modifies this`needRequestUpdate
      ensures State(t.conns) == old(State(t.conns)).UpdateRequests()
    {
      if !needRequestUpdate && requests == {} && cancelled == {} {
        needRequestUpdate := true;
      }
    }

    method Write(n: nat)
      modifies this`link
      ensures link == old(link).Write(n)
    {
      if !link.webseed {
        link := link.(buffered := link.buffered + n);
      }
    }

    method DeleteRequest(r: Req) returns (deleted: bool)
      requires Owns(t.requestState, this, Book())
      modifies this`requests, t`requestState
      ensures RequestScheduler.DeleteRequest(old(t.requestState), this, old(Book()), r) ==
              Done((t.requestState, Book(), deleted))
    {
      if r !in requests {
        return false;
      }
      requests := requests - {r};
      assert r in t.requestState && t.requestState[r] == this;
      t.requestState := t.requestState - {r};
      return true;
    }

    method DecExpectedChunkReceive(r: Req)
      requires r in validReceiveChunks && validReceiveChunks[r] > 0
      modifies this`validReceiveChunks
      ensures RequestScheduler.DecExpected(old(Book()), r) == Done(Book())
    {
      var count := validReceiveChunks[r];
      if count == 1 {
        validReceiveChunks := validReceiveChunks - {r};
      } else {
        assert count > 1;
        validReceiveChunks := validReceiveChunks[r := count - 1];
      }
    }

    method Cancel(r: Req, acked: bool, ghost busy: bool)
      requires Owns(t.requestState, this, Book()) && PeerInv(State(t.conns), busy) && r in requests
      modifies this, t`requestState
      ensures RequestScheduler.Cancel(old(t.requestState), this, old(State(t.conns)), r, acked) ==
              Done((t.requestState, State(t.conns)))
    {
      var deleted := DeleteRequest(r);
      assert deleted;
      Write(REQUEST_MSG_LEN);
      if acked {
        assert r !in cancelled;
        cancelled := cancelled + {r};
      }
      peakRequests := peakRequests - 1;
      UpdateRequests();
    }

    method RemoteRejectedRequest(r: Req) returns (valid: bool)
      requires Owns(t.requestState, this, Book()) && PeerInv(State(t.conns), false)
      modifies this, t`requestState
      ensures RequestScheduler.Reject(old(t.requestState), this, old(State(t.conns)), r) ==
              Done((t.requestState, State(t.conns), valid))
    {
      var deleted := DeleteRequest(r);
      if deleted {
        peakRequests := peakRequests - 1;
      } else if r in cancelled {
        cancelled := cancelled - {r};
      } else {
        return false;
      }
      UpdateRequests();
      assert r in validReceiveChunks;
      DecExpectedChunkReceive(r);
      return true;
    }

    /** Handle a chunk up to the point where it is written out. */
    method ReceiveChunk(r: Req, have: bool, now: int, acked: bool) returns (receipt: Receipt)
      requires t.Valid() && this in t.all
      modifies t`requestState, t.all
      ensures t.Listed()
      ensures RequestScheduler.Receive(old(t.View()), this, r, have, now, acked) == Done((t.View(), receipt))
    {
      assert Owns(t.requestState, this, t.View().peers[this].book) && PeerInv(t.View().peers[this], false);
      if r !in validReceiveChunks || validReceiveChunks[r] == 0 {
        return Unexpected;
      }
      SettleKeeps(t.View(), this, r);
      var intended := Settle(r);
      t.ViewAfter(this);
      if have {
        return Redundant(intended);
      }
      Accept(r, now, acked);
      return Accepted(intended);
    }

    /** Keep a chunk we lacked: cancel the request for it at whichever other peer has one. */
    method Accept(r: Req, now: int, acked: bool)
      requires t.Valid() && this in t.all && (r in t.requestState ==> t.requestState[r] != this)
      modifies t`requestState, t.all
      ensures t.Listed()
      ensures RequestScheduler.Accept(old(t.View()), this, r, now, acked) == Done(t.View())
    {
      assert PeerInv(t.View().peers[this], false);
      link := link.(lastUseful := now);
      t.ViewAfter(this);
      PeerChangeKeeps(old(t.View()), this, State(t.conns), {});
      assert r in t.requestState ==> t.requestState[r] != this;
      t.CancelRequest(r, acked, {});
    }

    /** Count the chunk and take its request, or its cancel, off the books. */
    method Settle(r: Req) returns (intended: bool)
      requires Owns(t.requestState, this, Book()) && PeerInv(State(t.conns), false) && r in validReceiveChunks
      modifies this, t`requestState
      ensures RequestScheduler.Settle(old(t.requestState), this, old(State(t.conns)), r) ==
              Done((t.requestState, State(t.conns), intended))
    {
      DecExpectedChunkReceive(r);
      intended := DeleteRequest(r);
      if !intended && r in cancelled {
        cancelled := cancelled - {r};
        intended := true;
      }
      if intended {
        UpdateRequests();
      }
    }

    /** Forget the requests of a snapshot one after the other. */
    method DeleteEachRequest(order: seq<Req>)
      requires Owns(t.requestState, this, Book()) && Lists(order, requests)
      modifies this`requests, t`requestState
      ensures DeleteEach(old(t.requestState), this, old(Book()), order) == Done((t.requestState, Book()))
      ensures requests == {}
    {
      ghost var goal := DeleteEach(t.requestState, this, Book(), order);
      assert order[0..] == order;
      for i := 0 to |order|
        invariant Owns(t.requestState, this, Book()) && Lists(order[i..], requests)
        invariant DeleteEach(t.requestState, this, Book(), order[i..]) == goal
      {
        ListsNext(order, i, requests);
        DeleteRequestDoes(t.requestState, this, Book(), order[i]);
        var deleted := DeleteRequest(order[i]);
        assert deleted;
      }
    }

    /** Forget all outstanding requests; `order` is the order the snapshot is visited in. */
    method DeleteAllRequests(order: seq<Req>)
      requires t.Valid() && this in t.all && Lists(order, requests)
      modifies t`requestState, t.all
      ensures t.Listed()
      ensures RequestScheduler.DeleteAll(old(t.View()), this, order) == Done(t.View())
    {
      assert Owns(t.requestState, this, t.View().peers[this].book);
      if requests == {} {
        return;
      }
      DeleteEachRequest(order);
      t.ViewAfter(this);
      t.WakeAll();
    }

    /** The remote peer chokes us. */
    method Choked(order: seq<Req>)
      requires t.Valid() && this in t.all && Lists(order, requests)
      modifies t`requestState, t.all
      ensures t.Listed()
      ensures RequestScheduler.Choke(old(t.View()), this, order) == Done(t.View())
    {
      if link.choking {
        return;
      }
      if !link.fast {
        DeleteAllRequests(order);
      }
      label before:
      link := link.(choking := true);
      t.ViewAfter@before(this);
    }

    /** Close the connection and take it off the list. */
    method Unlist()
      requires t.Listed() && this in t.all
      modifies this`closed, t`conns
      ensures t.Listed() && t.View() == Gone(old(t.View()), this)
    {
      closed := true;
      t.conns := t.conns - {this};
      assert t.View().peers == Gone(old(t.View()), this).peers;
    }

    /** Close the connection and take it out of the torrent. */
    method Drop(order: seq<Req>)
      requires t.Valid() && this in t.all && Lists(order, requests)
      modifies t`requestState, t`conns, t.all
      ensures t.Listed()
      ensures RequestScheduler.Drop(old(t.View()), this, order) == Done(t.View())
    {
      GoneKeeps(t.View(), this);
      Unlist();
      DeleteAllRequests(order);
    }

    /** Close a webseed: cancel all its requests, in the order the snapshot is visited in. */
    method CloseWebseed(order: seq<Req>, acked: set<Req>)
      requires t.Valid() && this in t.all && Lists(order, requests)
      modifies t`requestState, t.all
      ensures t.Listed()
      ensures RequestScheduler.CloseWebseed(old(t.View()), this, order, acked) == Done(t.View())
    {
      if closed {
        return;
      }
      assert Owns(t.requestState, this, t.View().peers[this].book) && PeerInv(t.View().peers[this], false);
      closed := true;
      CancelAllRequests(order, acked);
      assert requests == {};
      t.ViewAfter(this);
      t.WakeAll();
    }

    method CancelAllRequests(order: seq<Req>, acked: set<Req>)
      requires Owns(t.requestState, this, Book()) && PeerInv(State(t.conns), false) && Lists(order, requests)
      modifies this, t`requestState
      ensures CancelEach(old(t.requestState), this, old(State(t.conns)), order, acked) ==
              Done((t.requestState, State(t.conns)))
      ensures requests == {}
    {
      ghost var goal := CancelEach(t.requestState, this, State(t.conns), order, acked);
      assert order[0..] == order;
      for i := 0 to |order|
        invariant Owns(t.requestState, this, Book()) && PeerInv(State(t.conns), false) && Lists(order[i..], requests)
        invariant CancelEach(t.requestState, this, State(t.conns), order[i..], acked) == goal
      {
        ghost var owner0, me0 := t.requestState, State(t.conns);
        ListsNext(order, i, requests);
        CancelDoes(owner0, this, me0, order[i], order[i] in acked, false);
        Cancel(order[i], order[i] in acked, false);
        CancelEachUnrolls(owner0, this, me0, order[i], order[i + 1..], acked, t.requestState, State(t.conns));
      }
    }

    /** Request a chunk unless it is requested already; the answer says whether the buffer has room. */
    method Request(o: Offer) returns (more: bool)
      requires PeerInv(State(t.conns), true) && MayAsk(State(t.conns), o)
      requires HasRoom(State(t.conns)) && BufferFits(State(t.conns))
      modifies this, t`requestState
      ensures RequestScheduler.Request(old(t.requestState), this, old(State(t.conns)), o) ==
              Done((t.requestState, State(t.conns), more))
    {
      assert o.checks.valid && o.r !in cancelled && o.checks.peerHas && this in t.conns && !closed;
      assert !o.checks.hashing && !o.checks.queued;
      assert !(link.choking && !o.allowedFast && o.r !in requests);
      if o.r in requests {
        return true;
      }
      assert |requests| < NominalMaxRequests();
      requests := requests + {o.r};
      validReceiveChunks := validReceiveChunks[o.r :=
        (if o.r in validReceiveChunks then validReceiveChunks[o.r] else 0) + 1];
      t.requestState := t.requestState[o.r := this];
      Write(REQUEST_MSG_LEN);
      return !link.BufferFull();
    }

    /** Collect the chunks this peer could be asked for, and whether to be interested. */
    method GetDesiredRequestState(baseline: bool, offers: seq<Offer>)
      returns (interested: bool, desired: seq<Offer>)
      ensures desired == Candidates(State(t.conns), baseline, offers)
      ensures interested == Interesting(offers)
    {
      interested, desired := false, [];
      assert offers[0..] == offers;
      for i := 0 to |offers|
        invariant Candidates(State(t.conns), baseline, offers) ==
                  desired + Candidates(State(t.conns), baseline, offers[i..])
        invariant interested <==> exists j :: 0 <= j < i && !offers[j].allowedFast
      {
        assert offers[i..][1..] == offers[i + 1..];
        var o := offers[i];
        var skip := false;
        if !o.allowedFast {
          interested := true;
          if link.choking && o.r !in requests {
            skip := true;
          }
        }
        if !skip && o.r !in cancelled && !(baseline && o.availability > 1) {
          desired := desired + [o];
        }
      }
    }

    /** Cancel a request that another peer has. */
    method CancelOther(r: Req, acked: bool)
      requires t.Listed() && this in t.all && Inv(t.View(), {this})
      requires r in t.requestState && t.requestState[r] != this
      modifies t`requestState, t.all
      ensures t.Listed() && State(t.conns) == old(State(t.conns))
      ensures RequestScheduler.CancelRequest(old(t.View()), r, acked) == Done(t.View())
    {
      CancelRequestKeeps(t.View(), r, acked, {this});
      t.CancelRequest(r, acked, {this});
      assert t.View().peers[this] == old(t.View()).peers[this];
    }

    /** Whether the owner of a request keeps it. */
    method Spares(existing: Peer) returns (spares: bool)
      ensures spares == SparesOwner(State(t.conns), existing.State(t.conns))
    {
      var diff := |requests| + 1 - (|existing.requests| - 1);
      return diff > 1 || (diff == 1 && link.lastUseful < existing.link.lastUseful);
    }

    /** Request, and what the torrent looks like then. */
    method Ask(o: Offer) returns (more: bool)
      requires t.Listed() && this in t.all && PeerInv(State(t.conns), true) && MayAsk(State(t.conns), o)
      requires HasRoom(State(t.conns)) && BufferFits(State(t.conns))
      modifies this, t`requestState
      ensures t.Listed()
      ensures RequestScheduler.Request(old(t.requestState), this, old(State(t.conns)), o) ==
              Done((t.requestState, State(t.conns), more))
      ensures t.View() == Sched(t.requestState, old(t.View()).peers[this := State(t.conns)])
    {
      more := Request(o);
      t.ViewAfter(this);
    }

    /** One round of the loop below. */
    method Take(o: Offer, acked: bool) returns (more: bool)
      requires t.Listed() && this in t.all && Inv(t.View(), {this})
      requires MayAsk(State(t.conns), o) && HasRoom(State(t.conns)) && BufferFits(State(t.conns))
      modifies t`requestState, t.all
      ensures t.Listed()
      ensures RequestScheduler.Take(old(t.View()), this, o, acked) == Done((t.View(), more))
    {
      assert PeerInv(t.View().peers[this], true);
      if o.r in t.requestState && t.requestState[o.r] != this {
        var spares := Spares(t.requestState[o.r]);
        if spares {
          return true;
        }
        CancelOther(o.r, acked);
      }
      ghost var ready := t.View();
      more := Ask(o);
      TakeIs(old(t.View()), this, o, acked, ready, t.requestState, State(t.conns), more);
    }

    /** The peer is filling up on requests from some candidates. */
    ghost predicate Fills(pops: seq<Offer>)
      reads this, t, t.all
    {
      t.Listed() && this in t.all && Filling(t.View(), this, pops)
    }

    /** The round that pops candidate `i`; the answer is false when there is none, or no room. */
    method Round(pops: seq<Offer>, i: nat, acked: set<Req>, ghost want: Outcome<Sched<Peer>>) returns (popped: bool)
      requires Fills(pops) && i <= |pops| && RequestScheduler.Fill(t.View(), this, pops[i..], acked) == want
      modifies t`requestState, t.all
      ensures Fills(pops)
      ensures popped ==> i < |pops| && RequestScheduler.Fill(t.View(), this, pops[i + 1..], acked) == want
      ensures !popped ==> want == Done(t.View())
    {
      if i == |pops| || |requests| + |cancelled| >= NominalMaxRequests() {
        FillEnds(t.View(), this, pops[i..], acked);
        return false;
      }
      FillStep(t.View(), this, pops, i, acked);
      var more := Take(pops[i], pops[i].r in acked);
      assert more;
      return true;
    }

    /** Fill up on requests in the order the candidates are popped, stealing where that is fair. */
    method Fill(pops: seq<Offer>, acked: set<Req>)
      requires Fills(pops)
      modifies t`requestState, t.all
      ensures t.Listed()
      ensures RequestScheduler.Fill(old(t.View()), this, pops, acked) == Done(t.View())
    {
      var i := 0;
      ghost var want := RequestScheduler.Fill(t.View(), this, pops, acked);
      assert pops[0..] == pops;
      while true
        invariant 0 <= i <= |pops| && Fills(pops)
        invariant RequestScheduler.Fill(t.View(), this, pops[i..], acked) == want
        decreases |pops| - i
      {
        var popped := Round(pops, i, acked, want);
        if !popped {
          return;
        }
        i := i + 1;
      }
    }

    /** Tell the peer of our interest, if it changed. */
    method SetInterested(interested: bool)
      requires t.Listed() && this in t.all
      modifies this`link
      ensures t.Listed() && State(t.conns) == old(State(t.conns)).(
                link := RequestScheduler.SetInterested(old(link), interested))
      ensures t.View() == old(t.View()).(peers := old(t.View()).peers[this := State(t.conns)])
    {
      if link.interested != interested {
        link := link.(interested := interested);
        Write(INTERESTED_MSG_LEN);
      }
      t.ViewAfter(this);
    }

    /** The end of an update: take the peak and clear the reason. */
    method FinishUpdate()
      requires t.Listed() && this in t.all
      modifies this`peakRequests, this`needRequestUpdate
      ensures t.Listed() && State(t.conns) == old(State(t.conns)).(
                peakRequests := |requests|, needUpdate := false)
      ensures t.View() == old(t.View()).(peers := old(t.View()).peers[this := State(t.conns)])
    {
      peakRequests := |requests|;
      needRequestUpdate := false;
      t.ViewAfter(this);
    }

    /** The start of an update: tell the peer of our interest. */
    method StartUpdate(interested: bool, ghost baseline: bool, ghost offers: seq<Offer>, ghost pops: seq<Offer>)
      requires interested == Interesting(offers)
      requires t.Valid() && this in t.all && OffersPass(offers) && NoneFast(offers)
      requires PopsOf(t.View(), this, baseline, offers, pops)
      requires link.webseed || link.buffered <= SAFE_BUFFERED
      requires !closed && needRequestUpdate
      modifies this`link
      ensures Fills(pops) && Started(old(t.View()), this, offers, t.View())
    {
      ghost var s := t.View();
      SetInterested(interested);
      StartKeeps(s, this, baseline, offers, pops, State(t.conns));
    }

    /** The rest of an update. */
    method FinishFilling(pops: seq<Offer>, acked: set<Req>, ghost s: Sched<Peer>, ghost offers: seq<Offer>)
      requires Fills(pops) && Started(s, this, offers, t.View())
      modifies t`requestState, t.all
      ensures t.Listed()
      ensures RequestScheduler.Update(s, this, offers, pops, acked) == Done(t.View())
    {
      ghost var s0 := t.View();
      Fill(pops, acked);
      ghost var s1 := t.View();
      FinishUpdate();
      UpdateIs(s, this, offers, pops, acked, s0, s1);
    }

    /** One whole update: interest, requests, and what they say about the next one. */
    method ApplyRequestState(baseline: bool, offers: seq<Offer>, pops: seq<Offer>, acked: set<Req>)
      requires t.Valid() && this in t.all && OffersPass(offers) && NoneFast(offers)
      requires PopsOf(t.View(), this, baseline, offers, pops)
      requires link.webseed || link.buffered <= SAFE_BUFFERED
      requires !closed && needRequestUpdate
      modifies t`requestState, t.all
      ensures t.Listed()
      ensures RequestScheduler.Update(old(t.View()), this, offers, pops, acked) == Done(t.View())
    {
      ghost var s := t.View();
      var interested, desired := GetDesiredRequestState(baseline, offers);
      StartUpdate(interested, baseline, offers, pops);
      FinishFilling(pops, acked, s, offers);
    }
  }
}
