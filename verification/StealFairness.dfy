/** Stealing keeps the number of owned requests and never makes their distribution less even. */
module StealFairness {
  import opened Common
  import opened RequestScheduler
  import opened RequestUpdates

  ghost function Load<P>(s: Sched<P>): map<P, int> {
    map q | q in s.peers :: |s.peers[q].book.requests|
  }

  ghost function Squares<P>(m: map<P, int>): map<P, int> {
    map q | q in m :: m[q] * m[q]
  }

  /** `owner` says of every member of the sets which set it is in. */
  ghost predicate Partition<P>(owner: map<Req, P>, sets: map<P, set<Req>>) {
    && (forall r | r in owner :: owner[r] in sets && r in sets[owner[r]])
    && (forall p | p in sets :: Part(owner, p, sets[p]))
  }

  ghost predicate Part<P>(owner: map<Req, P>, p: P, part: set<Req>) {
    forall r | r in part :: r in owner && owner[r] == p
  }

  lemma PartitionRest<P>(owner: map<Req, P>, sets: map<P, set<Req>>, q: P)
    requires Partition(owner, sets) && q in sets
    ensures Partition(owner - sets[q], sets - {q})
  {
    var rest, left := owner - sets[q], sets - {q};
    forall p | p in left
      ensures Part(rest, p, left[p])
    {
      assert Part(owner, p, sets[p]) && Part(owner, q, sets[q]);
    }
  }

  lemma PartSize<P>(owner: map<Req, P>, part: set<Req>)
    requires part <= owner.Keys
    ensures |owner| == |part| + |owner - part|
  {
    assert (owner - part).Keys + part == owner.Keys;
  }

  function Sizes<P>(sets: map<P, set<Req>>): map<P, int> {
    map p | p in sets :: |sets[p]|
  }

  lemma SizesRest<P>(sets: map<P, set<Req>>, q: P)
    requires q in sets
    ensures Sum(Sizes(sets)) == |sets[q]| + Sum(Sizes(sets - {q}))
  {
    SumWithout(Sizes(sets), q);
    assert Sizes(sets) - {q} == Sizes(sets - {q});
  }

  lemma {:induction false} PartitionAddsUp<P>(owner: map<Req, P>, sets: map<P, set<Req>>)
    requires Partition(owner, sets)
    ensures Sum(Sizes(sets)) == |owner|
    decreases |sets|
  {
    if sets == map[] {
      assert owner == map[] && Sizes(sets) == map[];
    } else {
      var q :| q in sets;
      PartitionRest(owner, sets, q);
      assert Part(owner, q, sets[q]);
      PartSize(owner, sets[q]);
      PartitionAddsUp(owner - sets[q], sets - {q});
      SizesRest(sets, q);
    }
  }

  /** Every owned request is counted at exactly one peer. */
  lemma LoadsAddUp<P>(s: Sched<P>, busy: set<P>)
    requires Inv(s, busy)
    ensures Sum(Load(s)) == |s.owner|
  {
    var sets := map q | q in s.peers :: s.peers[q].book.requests;
    forall p | p in sets
      ensures Part(s.owner, p, sets[p])
    {
      assert Owns(s.owner, p, s.peers[p].book);
    }
    PartitionAddsUp(s.owner, sets);
    assert Load(s) == Sizes(sets);
  }

  /** The taker was allowed to steal. */
  ghost predicate Steals<P>(s: Sched<P>, p: P, o: Offer) {
    && Inv(s, {p}) && p in s.peers
    && o.r in s.owner && s.owner[o.r] != p && !PassesOver(s, p, o.r)
    && MayAsk(s.peers[p], o) && HasRoom(s.peers[p]) && BufferFits(s.peers[p])
  }

  /** What the two peers of a steal bring along. */
  ghost predicate StealParties<P>(s: Sched<P>, p: P, v: P, o: Offer) {
    && p in s.peers && v in s.peers && p != v && o.r in s.owner && s.owner[o.r] == v
    && Owns(s.owner, v, s.peers[v].book) && o.r in s.peers[v].book.requests && PeerInv(s.peers[v], false)
    && o.r !in s.peers[p].book.requests && PeerInv(s.peers[p], true)
    && !SparesOwner(s.peers[p], s.peers[v])
    && MayAsk(s.peers[p], o) && HasRoom(s.peers[p]) && BufferFits(s.peers[p])
  }

  lemma StealHasParties<P>(s: Sched<P>, p: P, o: Offer)
    requires Steals(s, p, o)
    ensures StealParties(s, p, s.owner[o.r], o)
  {
    var v := s.owner[o.r];
    assert Owns(s.owner, v, s.peers[v].book) && PeerInv(s.peers[v], false);
    assert Owns(s.owner, p, s.peers[p].book) && PeerInv(s.peers[p], true);
  }

  /** Request `r` moved from the book of `v` to that of `p`, and nobody else is concerned. */
  ghost predicate BooksMoved<P>(s: Sched<P>, s1: Sched<P>, p: P, v: P, r: Req) {
    && p in s.peers && v in s.peers && s1.peers.Keys == s.peers.Keys
    && s1.owner == s.owner[r := p]
    && s1.peers[p].book.requests == s.peers[p].book.requests + {r}
    && s1.peers[v].book.requests == s.peers[v].book.requests - {r}
    && forall q | q in s.peers && q != p && q != v :: s1.peers[q] == s.peers[q]
  }

  lemma Reowned<P>(owner: map<Req, P>, r: Req, p: P)
    ensures (owner - {r})[r := p] == owner[r := p]
  {
  }

  lemma StealDoes<P>(s: Sched<P>, p: P, v: P, o: Offer, acked: bool)
    requires StealParties(s, p, v, o)
    ensures Take(s, p, o, acked).Done?
    ensures BooksMoved(s, Take(s, p, o, acked).value.0, p, v, o.r)
    ensures var s1 := Take(s, p, o, acked).value.0;
            v in s1.peers && s1.peers[v].book.cancelled == s.peers[v].book.cancelled + (if acked then {o.r} else {})
  {
    CancelDoes(s.owner, v, s.peers[v], o.r, acked, false);
    var (owner1, you) := Cancel(s.owner, v, s.peers[v], o.r, acked).value;
    var s1 := Sched(owner1, s.peers[v := you]);
    RequestDoes(owner1, p, s.peers[p], o);
    var (owner2, me, more) := Request(owner1, p, s.peers[p], o).value;
    TakeIs(s, p, o, acked, s1, owner2, me, more);
    Reowned(s.owner, o.r, p);
  }

  lemma MovedLoads<P>(s: Sched<P>, p: P, v: P, o: Offer, s1: Sched<P>)
    requires StealParties(s, p, v, o) && BooksMoved(s, s1, p, v, o.r)
    ensures Load(s1) == Load(s)[p := Load(s)[p] + 1][v := Load(s)[v] - 1]
    ensures Load(s)[p] + 1 <= Load(s)[v]
  {
  }

  lemma SquareStep(a: int, b: int)
    requires a + 1 <= b
    ensures (a + 1) * (a + 1) + (b - 1) * (b - 1) <= a * a + b * b
    ensures (a + 1) * (a + 1) + (b - 1) * (b - 1) == a * a + b * b <==> b == a + 1
  {
    assert (a + 1) * (a + 1) + (b - 1) * (b - 1) == a * a + b * b + 2 * (a + 1 - b);
  }

  /**
   * The taker ends at most one ahead of the victim; the total stays, and the sum of the squares
   * drops unless the victim had exactly one more.
   */
  ghost predicate FairMove<P>(m: map<P, int>, m1: map<P, int>, p: P, v: P) {
    && p in m && v in m && p in m1 && v in m1
    && m1[p] <= m1[v] + 1
    && Sum(m1) == Sum(m)
    && Sum(Squares(m1)) <= Sum(Squares(m))
    && (Sum(Squares(m1)) == Sum(Squares(m)) <==> m[v] == m[p] + 1)
  }

  /** One request moving from `v` to `p` changes the sums as it should. */
  lemma MoveSums<P>(m: map<P, int>, m1: map<P, int>, p: P, v: P)
    requires p in m && v in m && p != v && m[p] + 1 <= m[v] && m1 == m[p := m[p] + 1][v := m[v] - 1]
    ensures FairMove(m, m1, p, v)
  {
    var a, b := m[p], m[v];
    var q0 := Squares(m);
    var q1 := q0[p := (a + 1) * (a + 1)];
    assert Squares(m1) == q1[v := (b - 1) * (b - 1)];
    SumUpdate(q0, p, (a + 1) * (a + 1));
    SumUpdate(q1, v, (b - 1) * (b - 1));
    SquareStep(a, b);
    SumUpdate(m, p, a + 1);
    SumUpdate(m[p := a + 1], v, b - 1);
  }

  lemma MovesFairly<P>(s: Sched<P>, p: P, v: P, o: Offer, s1: Sched<P>)
    requires StealParties(s, p, v, o) && BooksMoved(s, s1, p, v, o.r)
    ensures FairMove(Load(s), Load(s1), p, v)
  {
    MovedLoads(s, p, v, o, s1);
    MoveSums(Load(s), Load(s1), p, v);
  }

  /** Every steal is a fair move of one request, and no request is lost or gained by it. */
  lemma StealIsFair<P>(s: Sched<P>, p: P, o: Offer, acked: bool)
    requires Steals(s, p, o)
    ensures Take(s, p, o, acked).Done?
    ensures BooksMoved(s, Take(s, p, o, acked).value.0, p, s.owner[o.r], o.r)
    ensures FairMove(Load(s), Load(Take(s, p, o, acked).value.0), p, s.owner[o.r])
  {
    StealHasParties(s, p, o);
    StealDoes(s, p, s.owner[o.r], o, acked);
    MovesFairly(s, p, s.owner[o.r], o, Take(s, p, o, acked).value.0);
  }
}
