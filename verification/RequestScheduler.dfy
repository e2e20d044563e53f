/**
 * The request bookkeeping shared by all the peers of a torrent: one ownership map, and for every
 * peer the outstanding requests, the cancelled requests that still await an acknowledgement, and
 * the number of chunks that may still arrive.  Every step of the program is a function that says
 * which of the program's own panics it would hit.
 */
module RequestScheduler {
  import opened Common

  type Req = nat

  const WRITE_BUFFER_HIGH_WATER := 32768
  const WRITE_BUFFER_LOW_WATER := WRITE_BUFFER_HIGH_WATER / 2
  const INTERESTED_MSG_LEN := 5
  const REQUEST_MSG_LEN := 17
  const MAX_LOCAL_TO_REMOTE_REQUESTS :=
    (WRITE_BUFFER_HIGH_WATER - WRITE_BUFFER_LOW_WATER - INTERESTED_MSG_LEN) / REQUEST_MSG_LEN

  /** What a peer records about its requests. */
  datatype Book = Book(
    requests: set<Req>,
    cancelled: set<Req>,       // cancelled, acknowledgement outstanding
    expected: map<Req, nat>)   // validReceiveChunks; an absent key counts 0
  {
    function Expected(r: Req): nat {
      if r in expected then expected[r] else 0
    }

    /** Without `r` among the requests and the cancelled ones. */
    function Settled(r: Req): Book {
      this.(requests := requests - {r}, cancelled := cancelled - {r})
    }
  }

  /** What the network side of a peer contributes. */
  datatype Link = Link(
    webseed: bool,             // requests over HTTP: no write buffer
    fast: bool,                // the fast extension was negotiated
    maxRequests: int,          // what the peer allows
    interested: bool,
    choking: bool,             // the peer chokes us
    buffered: nat,             // bytes in the write buffer
    lastUseful: int)           // when the last useful chunk arrived
  {
    /** Put a message of `n` bytes in the write buffer. */
    function Write(n: nat): Link {
      if webseed then this else this.(buffered := buffered + n)
    }

    predicate BufferFull() {
      !webseed && buffered >= WRITE_BUFFER_HIGH_WATER
    }
  }

  datatype PeerState = PeerState(
    book: Book,
    peakRequests: int,
    needUpdate: bool,          // a reason to update the requests is set
    active: bool,              // among the torrent's connections or webseeds
    closed: bool,
    link: Link)
  {
    predicate LowOnRequests() {
      book.requests == {} && book.cancelled == {}
    }

    function NominalMaxRequests(): int {
      Max(1, Min(link.maxRequests, Min(peakRequests * 2, MAX_LOCAL_TO_REMOTE_REQUESTS)))
    }

    function UpdateRequests(): PeerState {
      if !needUpdate && LowOnRequests() then this.(needUpdate := true) else this
    }
  }

  datatype Sched<P> = Sched(owner: map<Req, P>, peers: map<P, PeerState>)

  /** What becomes of a chunk that arrives. */
  datatype Receipt = Unexpected | Redundant(intended: bool) | Accepted(intended: bool)

  // ------------------------------------------------- steps of a single peer

  /** Delete an outstanding request of `p`; the answer says whether there was one. */
  function DeleteRequest<P(==)>(owner: map<Req, P>, p: P, book: Book, r: Req)
    : Outcome<(map<Req, P>, Book, bool)>
  {
    if r !in book.requests then Done((owner, book, false))
    else if r !in owner || owner[r] != p then
      Panic("only one peer should have a given request at a time")
    else Done((owner - {r}, book.(requests := book.requests - {r}), true))
  }

  function DecExpected(book: Book, r: Req): Outcome<Book> {
    var count := book.Expected(r);
    if count == 1 then Done(book.(expected := book.expected - {r}))
    else if count > 1 then Done(book.(expected := book.expected[r := count - 1]))
    else Panic("chunk was not expected")
  }

  /** Cancel a request of `p`; `acked` says whether an answer to the cancel is to come. */
  function Cancel<P(==)>(owner: map<Req, P>, p: P, me: PeerState, r: Req, acked: bool)
    : Outcome<(map<Req, P>, PeerState)>
  {
    var (owner1, book, deleted) :- DeleteRequest(owner, p, me.book, r);
    if !deleted then Panic("request not existing should have been guarded")
    else if acked && r in book.cancelled then Panic("request already cancelled")
    else
      var book1 := if acked then book.(cancelled := book.cancelled + {r}) else book;
      var me1 := me.(book := book1,
                     peakRequests := me.peakRequests - 1,
                     link := me.link.Write(REQUEST_MSG_LEN));
      Done((owner1, me1.UpdateRequests()))
  }

  /** A reject from the peer; the answer says whether it was valid. */
  function Reject<P(==)>(owner: map<Req, P>, p: P, me: PeerState, r: Req)
    : Outcome<(map<Req, P>, PeerState, bool)>
  {
    var (owner1, book, deleted) :- DeleteRequest(owner, p, me.book, r);
    if !deleted && r !in book.cancelled then Done((owner, me, false))
    else
      var me1 := if deleted then me.(book := book, peakRequests := me.peakRequests - 1)
                 else me.(book := book.(cancelled := book.cancelled - {r}));
      var book1 :- DecExpected(me1.book, r);
      Done((owner1, me1.UpdateRequests().(book := book1), true))
  }

  /** The receiver's side of an expected chunk; the answer says whether it was asked for. */
  function Settle<P(==)>(owner: map<Req, P>, p: P, me: PeerState, r: Req)
    : Outcome<(map<Req, P>, PeerState, bool)>
  {
    var book0 :- DecExpected(me.book, r);
    var (owner1, book, deleted) :- DeleteRequest(owner, p, book0, r);
    if deleted then Done((owner1, me.(book := book).UpdateRequests(), true))
    else if r !in book.cancelled then Done((owner1, me.(book := book), false))
    else Done((owner1, me.(book := book.(cancelled := book.cancelled - {r})).UpdateRequests(), true))
  }

  /** Delete the requests of a snapshot one after the other. */
  function DeleteEach<P(==)>(owner: map<Req, P>, p: P, book: Book, rs: seq<Req>)
    : Outcome<(map<Req, P>, Book)>
  {
    if rs == [] then Done((owner, book))
    else
      var (owner1, book1, deleted) :- DeleteRequest(owner, p, book, rs[0]);
      if !deleted then Panic("request should exist") else DeleteEach(owner1, p, book1, rs[1..])
  }

  /** Cancel the requests of a snapshot one after the other; those in `acked` get an answer later. */
  function CancelEach<P(==)>(owner: map<Req, P>, p: P, me: PeerState, rs: seq<Req>, acked: set<Req>)
    : Outcome<(map<Req, P>, PeerState)>
    decreases rs
  {
    if rs == [] then Done((owner, me))
    else
      var (owner1, me1) :- Cancel(owner, p, me, rs[0], rs[0] in acked);
      CancelEach(owner1, p, me1, rs[1..], acked)
  }

  // --------------------------------------------- steps of the whole torrent

  function CancelRequest<P(==)>(s: Sched<P>, r: Req, acked: bool): Outcome<Sched<P>> {
    if r !in s.owner then Done(s)
    else if s.owner[r] !in s.peers then Panic("owner is gone")
    else
      var (owner1, you) :- Cancel(s.owner, s.owner[r], s.peers[s.owner[r]], r, acked);
      if r in owner1 then Panic("expected request state to be gone")
      else Done(Sched(owner1, s.peers[s.owner[r] := you]))
  }

  /** Peer `p` just settled a chunk we lacked: nobody else needs to deliver it any more. */
  function Accept<P(==)>(s: Sched<P>, p: P, r: Req, now: int, acked: bool): Outcome<Sched<P>>
    requires p in s.peers
  {
    if r in s.owner && s.owner[r] == p then
      Panic("should not be pending request from conn that just received it")
    else
      var me := s.peers[p].(link := s.peers[p].link.(lastUseful := now));
      CancelRequest(s.(peers := s.peers[p := me]), r, acked)
  }

  /** A chunk arrives. `have` says whether it is already there, `now` is the time. */
  function Receive<P(==)>(s: Sched<P>, p: P, r: Req, have: bool, now: int, acked: bool)
    : Outcome<(Sched<P>, Receipt)>
    requires p in s.peers
  {
    if s.peers[p].book.Expected(r) == 0 then Done((s, Unexpected))
    else
      var (owner1, me, intended) :- Settle(s.owner, p, s.peers[p], r);
      var s1 := Sched(owner1, s.peers[p := me]);
      if have then Done((s1, Redundant(intended)))
      else
        var s2 :- Accept(s1, p, r, now, acked);
        Done((s2, Accepted(intended)))
  }

  /** All active peers low on requests get a reason to update. */
  function WakeAll<P(==)>(peers: map<P, PeerState>): map<P, PeerState> {
    map q | q in peers :: if peers[q].active then peers[q].UpdateRequests() else peers[q]
  }

  /** `order` is the order in which the snapshot of the requests is visited. */
  function DeleteAll<P(==)>(s: Sched<P>, p: P, order: seq<Req>): Outcome<Sched<P>>
    requires p in s.peers
  {
    var me := s.peers[p];
    if me.book.requests == {} then Done(s)
    else
      var (owner1, book) :- DeleteEach(s.owner, p, me.book, order);
      if book.requests != {} then Panic("requests left")
      else Done(Sched(owner1, WakeAll(s.peers[p := me.(book := book)])))
  }

  function Choke<P(==)>(s: Sched<P>, p: P, order: seq<Req>): Outcome<Sched<P>>
    requires p in s.peers
  {
    if s.peers[p].link.choking then Done(s)
    else
      var s1 :- if s.peers[p].link.fast then Done(s) else DeleteAll(s, p, order);
      if p !in s1.peers then Panic("peer is gone")
      else
        var me := s1.peers[p];
        Done(s1.(peers := s1.peers[p := me.(link := me.link.(choking := true))]))
  }

  function Unchoke<P(==)>(s: Sched<P>, p: P, anyPending: bool): Sched<P>
    requires p in s.peers
  {
    var me := s.peers[p];
    if !me.link.choking then s
    else
      var me1 := me.(link := me.link.(choking := false));
      s.(peers := s.peers[p := if anyPending then me1.UpdateRequests() else me1])
  }

  /** A connection is closed and no longer listed. */
  function Gone<P(==)>(s: Sched<P>, p: P): Sched<P>
    requires p in s.peers
  {
    s.(peers := s.peers[p := s.peers[p].(closed := true, active := false)])
  }

  /** Close a connection and take it out of the torrent. */
  function Drop<P(==)>(s: Sched<P>, p: P, order: seq<Req>): Outcome<Sched<P>>
    requires p in s.peers
  {
    DeleteAll(Gone(s, p), p, order)
  }

  /** Close a webseed: it stays listed, its requests are cancelled. */
  function CloseWebseed<P(==)>(s: Sched<P>, p: P, order: seq<Req>, acked: set<Req>): Outcome<Sched<P>>
    requires p in s.peers
  {
    if s.peers[p].closed then Done(s)
    else
      var (owner1, me) :- CancelEach(s.owner, p, s.peers[p].(closed := true), order, acked);
      if me.book.requests != {} then Panic("requests left")
      else Done(Sched(owner1, WakeAll(s.peers[p := me])))
  }

  // ------------------------------------------------------- request updates

  /** What a request is checked against, besides the peer: the chunk and its piece.  An update holds the lock. */
  datatype Checks = Checks(
    valid: bool,               // there is such a chunk
    peerHas: bool,             // the peer has the piece
    hashing: bool,             // the piece is being hashed
    queued: bool)              // the piece is queued for that
  {
    predicate Pass() {
      valid && peerHas && !hashing && !queued
    }
  }

  /** A chunk that a wanted piece still lacks, as the candidate filter and the checks see it. */
  datatype Offer = Offer(r: Req, allowedFast: bool, availability: int, checks: Checks)

  predicate Candidate(me: PeerState, baseline: bool, o: Offer) {
    && (!o.allowedFast && me.link.choking ==> o.r in me.book.requests)
    && o.r !in me.book.cancelled
    && !(baseline && o.availability > 1)
  }

  /** The requests to choose from, in the order they were offered. */
  function Candidates(me: PeerState, baseline: bool, offers: seq<Offer>): seq<Offer> {
    if offers == [] then []
    else if Candidate(me, baseline, offers[0]) then [offers[0]] + Candidates(me, baseline, offers[1..])
    else Candidates(me, baseline, offers[1..])
  }

  predicate Interesting(offers: seq<Offer>) {
    exists i :: 0 <= i < |offers| && !offers[i].allowedFast
  }

  /** Request a chunk.  The answer says whether the write buffer has room for more. */
  function Request<P(==)>(owner: map<Req, P>, p: P, me: PeerState, o: Offer)
    : Outcome<(map<Req, P>, PeerState, bool)>
  {
    if !o.checks.valid then Panic("invalid chunk")
    else if o.r in me.book.cancelled then Panic("request is cancelled and waiting acknowledgement")
    else if !o.checks.peerHas then Panic("requesting piece peer doesn't have")
    else if !me.active then Panic("requesting but not in active conns")
    else if me.closed then Panic("requesting when connection is closed")
    else if o.checks.hashing then Panic("piece is being hashed")
    else if o.checks.queued then Panic("piece is queued for hash")
    else if me.link.choking && !o.allowedFast && o.r !in me.book.requests then
      Panic("peer choking and piece not allowed fast")
    else if o.r in me.book.requests then Done((owner, me, true))
    else if |me.book.requests| >= me.NominalMaxRequests() then Panic("too many outstanding requests")
    else
      var book := me.book.(requests := me.book.requests + {o.r},
                           expected := me.book.expected[o.r := me.book.Expected(o.r) + 1]);
      var link := me.link.Write(REQUEST_MSG_LEN);
      Done((owner[o.r := p], me.(book := book, link := link), !link.BufferFull()))
  }

  /** Whether `me` leaves the request with the peer `other` that has it. */
  predicate SparesOwner(me: PeerState, other: PeerState) {
    var diff := |me.book.requests| + 1 - (|other.book.requests| - 1);
    diff > 1 || (diff == 1 && me.link.lastUseful < other.link.lastUseful)
  }

  predicate HasRoom(me: PeerState) {
    |me.book.requests| + |me.book.cancelled| < me.NominalMaxRequests()
  }

  /** Whether `p` passes over a popped candidate that somebody else owns. */
  predicate PassesOver<P(==)>(s: Sched<P>, p: P, r: Req) {
    && r in s.owner && s.owner[r] != p && p in s.peers && s.owner[r] in s.peers
    && SparesOwner(s.peers[p], s.peers[s.owner[r]])
  }

  /** One round of the loop: take the popped candidate, stealing it if need be, or pass it over. */
  function Take<P(==)>(s: Sched<P>, p: P, o: Offer, acked: bool): Outcome<(Sched<P>, bool)>
    requires p in s.peers
  {
    if PassesOver(s, p, o.r) then Done((s, true))
    else
      var s1 :- if o.r in s.owner && s.owner[o.r] != p then CancelRequest(s, o.r, acked) else Done(s);
      if p !in s1.peers then Panic("peer is gone")
      else
        var (owner1, me, more) :- Request(s1.owner, p, s1.peers[p], o);
        Done((Sched(owner1, s1.peers[p := me]), more))
  }

  /** The fill-and-steal loop over the candidates in the order they are popped. */
  function Fill<P(==)>(s: Sched<P>, p: P, pops: seq<Offer>, acked: set<Req>): Outcome<Sched<P>>
    requires p in s.peers
    decreases pops
  {
    if pops == [] || !HasRoom(s.peers[p]) then Done(s)
    else
      var (s1, more) :- Take(s, p, pops[0], pops[0].r in acked);
      if !more then Panic("couldn't fill apply entire request state")
      else if p !in s1.peers then Panic("peer is gone")
      else Fill(s1, p, pops[1..], acked)
  }

  function SetInterested(link: Link, interested: bool): Link {
    if link.interested == interested then link
    else link.(interested := interested).Write(INTERESTED_MSG_LEN)
  }

  /** Apply a desired request state: `pops` is the order the heap yields its candidates in. */
  function Apply<P(==)>(s: Sched<P>, p: P, interested: bool, pops: seq<Offer>, acked: set<Req>)
    : Outcome<Sched<P>>
    requires p in s.peers
  {
    var me := s.peers[p];
    var link := SetInterested(me.link, interested);
    if me.link.interested != interested && link.BufferFull() then Panic("insufficient write buffer")
    else if me.book.requests != {} then Panic("expected zero existing requests")
    else
      var s1 :- Fill(s.(peers := s.peers[p := me.(link := link)]), p, pops, acked);
      if p !in s1.peers then Panic("peer is gone")
      else
        var me1 := s1.peers[p].(peakRequests := |s1.peers[p].book.requests|, needUpdate := false);
        Done(s1.(peers := s1.peers[p := me1]))
  }

  /** Recompute and apply the requests of a peer, if it is open and has a reason to. */
  function Update<P(==)>(s: Sched<P>, p: P, offers: seq<Offer>, pops: seq<Offer>, acked: set<Req>)
    : Outcome<Sched<P>>
    requires p in s.peers
  {
    if s.peers[p].closed || !s.peers[p].needUpdate then Done(s)
    else Apply(s, p, Interesting(offers), pops, acked)
  }

  // -------------------------------------------------------------- invariant

  ghost predicate BookInv(book: Book) {
    && book.requests !! book.cancelled
    && (forall r | r in book.expected :: book.expected[r] > 0)
    && (forall r | r in book.requests || r in book.cancelled :: r in book.expected)
  }

  /**
   * `busy` holds for the one peer whose requests are being updated.  A peer we are not interested in made
   * no requests in its last update, as every offer there would have told it of our interest.
   */
  ghost predicate PeerInv(me: PeerState, busy: bool) {
    && BookInv(me.book)
    && (me.needUpdate && !busy ==> me.book.requests == {})
    && (busy || me.link.interested || me.peakRequests <= 0)
    && (me.active || me.closed)
  }

  /** Every request in the book belongs to `p`. */
  ghost predicate Owns<P>(owner: map<Req, P>, p: P, book: Book) {
    forall r | r in book.requests :: r in owner && owner[r] == p
  }

  ghost predicate Inv<P>(s: Sched<P>, busy: set<P>) {
    && (forall r | r in s.owner :: s.owner[r] in s.peers && r in s.peers[s.owner[r]].book.requests)
    && (forall p | p in s.peers :: Owns(s.owner, p, s.peers[p].book) && PeerInv(s.peers[p], p in busy))
  }

  /** The statement of the invariant in the program's terms. */
  lemma InvMeaning<P>(s: Sched<P>, p: P, r: Req)
    requires Inv(s, {}) && p in s.peers
    ensures (r in s.owner && s.owner[r] == p) <==> r in s.peers[p].book.requests
    ensures !(r in s.peers[p].book.requests && r in s.peers[p].book.cancelled)
    ensures s.peers[p].book.Expected(r) >=
            (if r in s.peers[p].book.requests then 1 else 0) + (if r in s.peers[p].book.cancelled then 1 else 0)
    ensures forall q | q in s.peers && r in s.peers[p].book.requests && r in s.peers[q].book.requests :: q == p
  {
    assert PeerInv(s.peers[p], false);
  }

  // ------------------------------------- what every single step does and keeps

  /** A peer that gives up some requests, and changes whatever else is its own. */
  lemma ShrinkKeeps<P>(s: Sched<P>, p: P, owner1: map<Req, P>, me: PeerState, busy: set<P>)
    requires Inv(s, busy) && p in s.peers
    requires PeerInv(me, p in busy) && me.book.requests <= s.peers[p].book.requests
    requires owner1 == s.owner - (s.peers[p].book.requests - me.book.requests)
    ensures Inv(Sched(owner1, s.peers[p := me]), busy)
  {
    var s1 := Sched(owner1, s.peers[p := me]);
    forall q | q in s1.peers
      ensures Owns(owner1, q, s1.peers[q].book)
    {
      assert Owns(s.owner, q, s.peers[q].book);
      assert Owns(s.owner, p, s.peers[p].book);
    }
  }

  lemma PeerChangeKeeps<P>(s: Sched<P>, p: P, me: PeerState, busy: set<P>)
    requires Inv(s, busy) && p in s.peers
    requires PeerInv(me, p in busy) && me.book.requests == s.peers[p].book.requests
    ensures Inv(s.(peers := s.peers[p := me]), busy)
  {
    assert s.owner == s.owner - (s.peers[p].book.requests - me.book.requests);
    ShrinkKeeps(s, p, s.owner, me, busy);
  }

  lemma DeleteRequestDoes<P>(owner: map<Req, P>, p: P, book: Book, r: Req)
    requires Owns(owner, p, book)
    ensures DeleteRequest(owner, p, book, r) ==
            Done((owner - (book.requests * {r}), book.(requests := book.requests - {r}), r in book.requests))
  {
    if r in book.requests {
      assert book.requests * {r} == {r};
    } else {
      assert owner - (book.requests * {r}) == owner;
      assert book.requests - {r} == book.requests;
    }
  }

  /** A cancel moves one request out, to `cancelled` if an answer is due. */
  lemma CancelDoes<P>(owner: map<Req, P>, p: P, me: PeerState, r: Req, acked: bool, busy: bool)
    requires Owns(owner, p, me.book) && PeerInv(me, busy) && r in me.book.requests
    ensures Cancel(owner, p, me, r, acked).Done?
    ensures var (owner1, me1) := Cancel(owner, p, me, r, acked).value;
            && owner1 == owner - {r}
            && PeerInv(me1, busy)
            && me1.book == Book(me.book.requests - {r},
                                me.book.cancelled + (if acked then {r} else {}), me.book.expected)
            && me1.active == me.active && me1.closed == me.closed && me1.peakRequests == me.peakRequests - 1
  {
    DeleteRequestDoes(owner, p, me.book, r);
    assert me.book.requests * {r} == {r};
    if !acked {
      assert me.book.cancelled + {} == me.book.cancelled;
    }
  }

  lemma DecExpectedDoes(book: Book, r: Req)
    requires BookInv(book) && book.Expected(r) > 0
    ensures DecExpected(book, r).Done?
    ensures var book1 := DecExpected(book, r).value;
            && BookInv(book1.Settled(r)) && book1 == book.(expected := book1.expected)
            && book1.Expected(r) == book.Expected(r) - 1
            && forall x: Req | x != r :: book1.Expected(x) == book.Expected(x)
  {
  }

  /** A reject is valid exactly for an outstanding or cancelled request, and settles it. */
  lemma RejectDoes<P>(owner: map<Req, P>, p: P, me: PeerState, r: Req)
    requires Owns(owner, p, me.book) && PeerInv(me, false)
    ensures Reject(owner, p, me, r).Done?
    ensures var (owner1, me1, valid) := Reject(owner, p, me, r).value;
            && owner1 == owner - (me.book.requests * {r})
            && (valid <==> r in me.book.requests || r in me.book.cancelled)
            && (!valid ==> me1 == me)
            && (valid ==> DecExpected(me.book, r).Done? && me1.book == DecExpected(me.book, r).value.Settled(r))
            && PeerInv(me1, false)
  {
    DeleteRequestDoes(owner, p, me.book, r);
    if r in me.book.requests || r in me.book.cancelled {
      DecExpectedDoes(me.book, r);
      if r in me.book.requests {
        assert me.book.cancelled - {r} == me.book.cancelled;
      }
    }
  }

  /** An expected chunk takes one off the count and settles the request or the cancel, if any. */
  lemma SettleDoes<P>(owner: map<Req, P>, p: P, me: PeerState, r: Req)
    requires Owns(owner, p, me.book) && PeerInv(me, false) && me.book.Expected(r) > 0
    ensures Settle(owner, p, me, r).Done? && DecExpected(me.book, r).Done?
    ensures var (owner1, me1, intended) := Settle(owner, p, me, r).value;
            && owner1 == owner - (me.book.requests * {r})
            && (intended <==> r in me.book.requests || r in me.book.cancelled)
            && me1.book == DecExpected(me.book, r).value.Settled(r)
            && me1.link == me.link
            && PeerInv(me1, false)
  {
    DecExpectedDoes(me.book, r);
    var book0 := DecExpected(me.book, r).value;
    assert Owns(owner, p, book0);
    DeleteRequestDoes(owner, p, book0, r);
    if r !in me.book.cancelled {
      assert me.book.cancelled - {r} == me.book.cancelled;
    }
  }

  lemma CancelRequestKeeps<P>(s: Sched<P>, r: Req, acked: bool, busy: set<P>)
    requires Inv(s, busy)
    ensures CancelRequest(s, r, acked).Done?
    ensures var s1 := CancelRequest(s, r, acked).value;
            && Inv(s1, busy) && s1.owner == s.owner - {r} && s1.peers.Keys == s.peers.Keys
            && (r !in s.owner ==> s1 == s)
            && (r in s.owner ==> s1.peers[s.owner[r]].book.requests == s.peers[s.owner[r]].book.requests - {r})
            && (forall q | q in s.peers && (r in s.owner ==> s.owner[r] != q) :: s1.peers[q] == s.peers[q])
  {
    if r in s.owner {
      var q := s.owner[r];
      var you := s.peers[q];
      assert Owns(s.owner, q, you.book) && PeerInv(you, q in busy);
      CancelDoes(s.owner, q, you, r, acked, q in busy);
      var (owner1, you1) := Cancel(s.owner, q, you, r, acked).value;
      assert you.book.requests - you1.book.requests == {r};
      ShrinkKeeps(s, q, owner1, you1, busy);
    } else {
      assert s.owner - {r} == s.owner;
    }
  }

  lemma OwnersBut<P>(owner: map<Req, P>, xs: set<Req>, r: Req)
    ensures (owner - (xs * {r})) - {r} == owner - {r}
  {
  }

  /** The state once the receiver of an expected chunk has settled it. */
  lemma SettleKeeps<P>(s: Sched<P>, p: P, r: Req)
    requires Inv(s, {}) && p in s.peers && s.peers[p].book.Expected(r) > 0
    ensures Settle(s.owner, p, s.peers[p], r).Done?
    ensures var (owner1, me, intended) := Settle(s.owner, p, s.peers[p], r).value;
            && Inv(Sched(owner1, s.peers[p := me]), {})
            && (r in owner1 ==> owner1[r] != p) && owner1 - {r} == s.owner - {r}
  {
    var me0 := s.peers[p];
    assert Owns(s.owner, p, me0.book) && PeerInv(me0, false);
    SettleDoes(s.owner, p, me0, r);
    var (owner1, me, intended) := Settle(s.owner, p, me0, r).value;
    assert me0.book.requests - me.book.requests == me0.book.requests * {r};
    ShrinkKeeps(s, p, owner1, me, {});
    OwnersBut(s.owner, me0.book.requests, r);
    assert r in s.owner && s.owner[r] == p ==> r in me0.book.requests * {r};
  }

  lemma AcceptKeeps<P>(s: Sched<P>, p: P, r: Req, now: int, acked: bool)
    requires Inv(s, {}) && p in s.peers && (r in s.owner ==> s.owner[r] != p)
    ensures Accept(s, p, r, now, acked).Done?
    ensures var s1 := Accept(s, p, r, now, acked).value;
            && Inv(s1, {}) && s1.peers.Keys == s.peers.Keys && s1.owner == s.owner - {r}
            && s1.peers[p] == s.peers[p].(link := s.peers[p].link.(lastUseful := now))
  {
    var me := s.peers[p].(link := s.peers[p].link.(lastUseful := now));
    assert PeerInv(s.peers[p], false);
    PeerChangeKeeps(s, p, me, {});
    CancelRequestKeeps(s.(peers := s.peers[p := me]), r, acked, {});
  }

  /** What a chunk that arrives does, in every case. */
  ghost predicate ReceiveFine<P>(s: Sched<P>, p: P, r: Req, have: bool, result: Outcome<(Sched<P>, Receipt)>) {
    && result.Done? && p in s.peers
    && var (s1, receipt) := result.value;
       var book := s.peers[p].book;
       var intended := r in book.requests || r in book.cancelled;
       && Inv(s1, {}) && s1.peers.Keys == s.peers.Keys
       && (if book.Expected(r) == 0 then s1 == s && receipt.Unexpected?
           else
             && receipt == (if have then Redundant(intended) else Accepted(intended))
             && DecExpected(book, r).Done?
             && s1.peers[p].book == DecExpected(book, r).value.Settled(r)
             && (if have then s1.peers == s.peers[p := s1.peers[p]] else s1.owner == s.owner - {r}))
  }

  lemma ReceiveIs<P>(s: Sched<P>, p: P, r: Req, have: bool, now: int, acked: bool,
                     s1: Sched<P>, intended: bool, s2: Sched<P>)
    requires p in s.peers && p in s1.peers && s.peers[p].book.Expected(r) > 0
    requires Settle(s.owner, p, s.peers[p], r) == Done((s1.owner, s1.peers[p], intended))
    requires s1.peers == s.peers[p := s1.peers[p]]
    requires if have then s2 == s1 else Accept(s1, p, r, now, acked) == Done(s2)
    ensures Receive(s, p, r, have, now, acked) ==
            Done((s2, if have then Redundant(intended) else Accepted(intended)))
  {
  }

  /**
   * A chunk never trips a panic, neither the expected-chunk one nor the one about its own request.
   * It settles the receiver's request or cancel; a chunk we lacked also cancels any other owner.
   */
  lemma ReceiveKeeps<P>(s: Sched<P>, p: P, r: Req, have: bool, now: int, acked: bool)
    requires Inv(s, {}) && p in s.peers
    ensures ReceiveFine(s, p, r, have, Receive(s, p, r, have, now, acked))
  {
    if s.peers[p].book.Expected(r) > 0 {
      assert Owns(s.owner, p, s.peers[p].book) && PeerInv(s.peers[p], false);
      SettleDoes(s.owner, p, s.peers[p], r);
      SettleKeeps(s, p, r);
      var (owner1, me, intended) := Settle(s.owner, p, s.peers[p], r).value;
      var s1 := Sched(owner1, s.peers[p := me]);
      if have {
        ReceiveIs(s, p, r, have, now, acked, s1, intended, s1);
      } else {
        AcceptKeeps(s1, p, r, now, acked);
        ReceiveIs(s, p, r, have, now, acked, s1, intended, Accept(s1, p, r, now, acked).value);
      }
    }
  }

  predicate Distinct(rs: seq<Req>) {
    forall i, j | 0 <= i < j < |rs| :: rs[i] != rs[j]
  }

  /** `rs` lists the set `xs`, each member once, in some order. */
  predicate Lists(rs: seq<Req>, xs: set<Req>) {
    Distinct(rs) && (forall r | r in rs :: r in xs) && (forall x | x in xs :: x in rs)
  }

  lemma ListsRest(rs: seq<Req>, xs: set<Req>)
    requires Lists(rs, xs) && rs != []
    ensures Lists(rs[1..], xs - {rs[0]})
  {
    assert rs == [rs[0]] + rs[1..];
  }

  /** The next of a list that is worked through. */
  lemma ListsNext(rs: seq<Req>, i: nat, xs: set<Req>)
    requires i < |rs| && Lists(rs[i..], xs)
    ensures rs[i..] == [rs[i]] + rs[i + 1..] && rs[i] in xs && Lists(rs[i + 1..], xs - {rs[i]})
  {
    ListsRest(rs[i..], xs);
    assert rs[i..][1..] == rs[i + 1..] && rs[i] in rs[i..];
  }

  /** Deleting a snapshot in whatever order removes exactly those requests. */
  lemma {:induction false} DeleteEachDoes<P>(owner: map<Req, P>, p: P, book: Book, rs: seq<Req>)
    requires Owns(owner, p, book) && Lists(rs, book.requests)
    ensures DeleteEach(owner, p, book, rs) == Done((owner - book.requests, book.(requests := {})))
  {
    if rs == [] {
      assert book.requests == {};
      assert owner - book.requests == owner;
    } else {
      var r := rs[0];
      assert r in book.requests;
      DeleteRequestDoes(owner, p, book, r);
      ListsRest(rs, book.requests);
      var book1 := book.(requests := book.requests - {r});
      assert book.requests * {r} == {r};
      DeleteEachDoes(owner - {r}, p, book1, rs[1..]);
      assert (owner - {r}) - book1.requests == owner - book.requests;
    }
  }

  lemma WakeKeeps(me: PeerState)
    requires PeerInv(me, false)
    ensures PeerInv(me.UpdateRequests(), false)
    ensures me.UpdateRequests() == me.(needUpdate := me.UpdateRequests().needUpdate)
  {
  }

  lemma WakeAllKeeps<P>(s: Sched<P>)
    requires Inv(s, {})
    ensures Inv(s.(peers := WakeAll(s.peers)), {})
  {
    var peers := WakeAll(s.peers);
    forall q | q in peers
      ensures Owns(s.owner, q, peers[q].book) && PeerInv(peers[q], false)
    {
      assert Owns(s.owner, q, s.peers[q].book);
      WakeKeeps(s.peers[q]);
    }
  }

  lemma WakeAllDoes<P>(peers: map<P, PeerState>, q: P)
    requires q in peers
    ensures WakeAll(peers)[q] == peers[q].(needUpdate := WakeAll(peers)[q].needUpdate)
  {
  }

  /** The requests of a peer, all of them, are gone, and the active peers woken. */
  function Emptied<P(==)>(s: Sched<P>, p: P): Sched<P>
    requires p in s.peers
  {
    var me := s.peers[p];
    Sched(s.owner - me.book.requests, WakeAll(s.peers[p := me.(book := me.book.(requests := {}))]))
  }

  lemma DeleteAllDoes<P>(s: Sched<P>, p: P, order: seq<Req>)
    requires p in s.peers && Owns(s.owner, p, s.peers[p].book) && Lists(order, s.peers[p].book.requests)
    ensures DeleteAll(s, p, order) == Done(if s.peers[p].book.requests == {} then s else Emptied(s, p))
  {
    if s.peers[p].book.requests != {} {
      DeleteEachDoes(s.owner, p, s.peers[p].book, order);
    }
  }

  lemma EmptiedKeeps<P>(s: Sched<P>, p: P)
    requires Inv(s, {}) && p in s.peers
    ensures Inv(Emptied(s, p), {})
  {
    var me := s.peers[p];
    assert PeerInv(me, false);
    var me1 := me.(book := me.book.(requests := {}));
    assert me.book.requests - {} == me.book.requests;
    ShrinkKeeps(s, p, s.owner - me.book.requests, me1, {});
    WakeAllKeeps(Sched(s.owner - me.book.requests, s.peers[p := me1]));
  }

  /** `p` owns nothing any more; the other owners keep theirs. */
  ghost predicate OwnsNothing<P>(s: Sched<P>, p: P, s1: Sched<P>) {
    && p in s.peers && s1.peers.Keys == s.peers.Keys
    && s1.owner == s.owner - s.peers[p].book.requests
    && s1.peers[p] == s.peers[p].(book := s.peers[p].book.(requests := {}), needUpdate := s1.peers[p].needUpdate)
    && forall q | q in s.peers && q != p :: s1.peers[q].book == s.peers[q].book
  }

  lemma EmptiedDoes<P>(s: Sched<P>, p: P)
    requires p in s.peers
    ensures OwnsNothing(s, p, Emptied(s, p))
  {
    var me := s.peers[p];
    WakeAllDoes(s.peers[p := me.(book := me.book.(requests := {}))], p);
  }

  lemma NothingOwned<P>(s: Sched<P>, p: P)
    requires p in s.peers && s.peers[p].book.requests == {}
    ensures OwnsNothing(s, p, s)
  {
    assert s.owner - s.peers[p].book.requests == s.owner;
  }

  /** After losing all its requests a peer owns nothing; the other owners keep theirs. */
  lemma DeleteAllKeeps<P>(s: Sched<P>, p: P, order: seq<Req>)
    requires Inv(s, {}) && p in s.peers && Lists(order, s.peers[p].book.requests)
    ensures DeleteAll(s, p, order).Done?
    ensures Inv(DeleteAll(s, p, order).value, {}) && OwnsNothing(s, p, DeleteAll(s, p, order).value)
  {
    assert Owns(s.owner, p, s.peers[p].book);
    DeleteAllDoes(s, p, order);
    if s.peers[p].book.requests == {} {
      NothingOwned(s, p);
    } else {
      EmptiedKeeps(s, p);
      EmptiedDoes(s, p);
    }
  }

  /** Only a peer without the fast extension loses its requests when it chokes us. */
  lemma ChokeKeeps<P>(s: Sched<P>, p: P, order: seq<Req>)
    requires Inv(s, {}) && p in s.peers && Lists(order, s.peers[p].book.requests)
    ensures Choke(s, p, order).Done?
    ensures var s1 := Choke(s, p, order).value;
            && Inv(s1, {}) && s1.peers.Keys == s.peers.Keys && s1.peers[p].link.choking
            && s1.peers[p].book.requests ==
               (if s.peers[p].link.choking || s.peers[p].link.fast then s.peers[p].book.requests else {})
  {
    if !s.peers[p].link.choking {
      if !s.peers[p].link.fast {
        DeleteAllKeeps(s, p, order);
      }
      var s1 := if s.peers[p].link.fast then s else DeleteAll(s, p, order).value;
      var me := s1.peers[p];
      assert PeerInv(me, false);
      PeerChangeKeeps(s1, p, me.(link := me.link.(choking := true)), {});
    }
  }

  lemma UnchokeKeeps<P>(s: Sched<P>, p: P, anyPending: bool)
    requires Inv(s, {}) && p in s.peers
    ensures Inv(Unchoke(s, p, anyPending), {}) && !Unchoke(s, p, anyPending).peers[p].link.choking
    ensures Unchoke(s, p, anyPending) == s.(peers := s.peers[p := Unchoke(s, p, anyPending).peers[p]])
  {
    assert PeerInv(s.peers[p], false);
    assert s.peers[p := s.peers[p]] == s.peers;
    PeerChangeKeeps(s, p, Unchoke(s, p, anyPending).peers[p], {});
  }

  lemma GoneKeeps<P>(s: Sched<P>, p: P)
    requires Inv(s, {}) && p in s.peers
    ensures Inv(Gone(s, p), {})
  {
    assert PeerInv(s.peers[p], false);
    PeerChangeKeeps(s, p, s.peers[p].(closed := true, active := false), {});
  }

  /** A dropped peer is closed and owns nothing. */
  lemma DropKeeps<P>(s: Sched<P>, p: P, order: seq<Req>)
    requires Inv(s, {}) && p in s.peers && Lists(order, s.peers[p].book.requests)
    ensures Drop(s, p, order).Done?
    ensures var s1 := Drop(s, p, order).value;
            && Inv(s1, {}) && s1.peers.Keys == s.peers.Keys && s1.peers[p].closed
            && s1.owner == s.owner - s.peers[p].book.requests
            && forall r | r in s1.owner :: s1.owner[r] != p
  {
    GoneKeeps(s, p);
    DeleteAllKeeps(Gone(s, p), p, order);
  }

  lemma CancelEachUnrolls<P>(owner: map<Req, P>, p: P, me: PeerState, r: Req, rest: seq<Req>, acked: set<Req>,
                             owner1: map<Req, P>, me1: PeerState)
    requires Cancel(owner, p, me, r, r in acked) == Done((owner1, me1))
    ensures CancelEach(owner, p, me, [r] + rest, acked) == CancelEach(owner1, p, me1, rest, acked)
  {
    assert ([r] + rest)[1..] == rest;
  }

  lemma {:induction false} CancelEachDoes<P>(owner: map<Req, P>, p: P, me: PeerState, rs: seq<Req>, acked: set<Req>)
    requires Owns(owner, p, me.book) && PeerInv(me, false) && Lists(rs, me.book.requests)
    ensures CancelEach(owner, p, me, rs, acked).Done?
    ensures var (owner1, me1) := CancelEach(owner, p, me, rs, acked).value;
            && owner1 == owner - me.book.requests && PeerInv(me1, false)
            && me1.book == Book({}, me.book.cancelled + me.book.requests * acked, me.book.expected)
            && me1.closed == me.closed
    decreases rs
  {
    if rs == [] {
      assert me.book.requests == {};
      assert owner - me.book.requests == owner;
      assert me.book.cancelled + me.book.requests * acked == me.book.cancelled;
    } else {
      var r := rs[0];
      assert r in me.book.requests;
      CancelDoes(owner, p, me, r, r in acked, false);
      var (owner1, me1) := Cancel(owner, p, me, r, r in acked).value;
      ListsRest(rs, me.book.requests);
      CancelEachDoes(owner1, p, me1, rs[1..], acked);
      assert owner1 - me1.book.requests == owner - me.book.requests;
      assert me1.book.cancelled + me1.book.requests * acked == me.book.cancelled + me.book.requests * acked;
    }
  }

  /** A closed webseed owns nothing and awaits exactly the answers it was promised. */
  lemma CloseWebseedKeeps<P>(s: Sched<P>, p: P, order: seq<Req>, acked: set<Req>)
    requires Inv(s, {}) && p in s.peers && Lists(order, s.peers[p].book.requests)
    ensures CloseWebseed(s, p, order, acked).Done?
    ensures var s1 := CloseWebseed(s, p, order, acked).value;
            && Inv(s1, {}) && s1.peers.Keys == s.peers.Keys && s1.peers[p].closed
            && (!s.peers[p].closed ==>
                  && s1.peers[p].book.requests == {} && s1.owner == s.owner - s.peers[p].book.requests
                  && s1.peers[p].book.cancelled == s.peers[p].book.cancelled + s.peers[p].book.requests * acked)
  {
    var me := s.peers[p];
    if !me.closed {
      assert Owns(s.owner, p, me.book) && PeerInv(me, false);
      CancelEachDoes(s.owner, p, me.(closed := true), order, acked);
      var (owner1, me1) := CancelEach(s.owner, p, me.(closed := true), order, acked).value;
      assert me.book.requests - {} == me.book.requests;
      ShrinkKeeps(s, p, owner1, me1, {});
      WakeAllKeeps(Sched(owner1, s.peers[p := me1]));
    }
  }
}
