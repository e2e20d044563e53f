/**
 * How many peers have a piece: a counter per piece for the peers known to have only some pieces,
 * and a set of the peers known to have all, kept up to date message by message.
 */
module Availability {
  import opened Common

  datatype Conn = Conn(
    pieces: set<nat>,    // the pieces the peer has claimed one by one
    haveAll: bool,       // the peer has everything
    closed: bool)        // closed, but possibly still listed

  datatype Swarm<P> = Swarm(
    info: Option<nat>,         // the number of pieces, once known
    conns: map<P, Conn>,       // the listed connections
    withAll: set<P>,           // connsWithAllPieces
    rel: seq<int>)             // relativeAvailability, one per piece
  {
    /** Whether a peer has a piece, as the program answers it. */
    predicate HasPiece(c: Conn, i: nat) {
      c.haveAll || (info.Some? && |c.pieces| == info.value) || i in c.pieces
    }
  }

  // ------------------------------------------------------------------ steps

  /** Increment the counters of some pieces, if there are counters. */
  function IncAll(rel: seq<int>, xs: set<nat>): Outcome<seq<int>> {
    if exists x | x in xs :: x >= |rel| then Panic("index out of range")
    else Done(seq(|rel|, i requires 0 <= i < |rel| => rel[i] + (if i in xs then 1 else 0)))
  }

  function DecAll(rel: seq<int>, xs: set<nat>): Outcome<seq<int>> {
    if exists x | x in xs :: x >= |rel| then Panic("index out of range")
    else if exists x | x in xs :: rel[x] <= 0 then Panic("availability would become negative")
    else Done(seq(|rel|, i requires 0 <= i < |rel| => rel[i] - (if i in xs then 1 else 0)))
  }

  function Put<P(==)>(s: Swarm<P>, p: P, c: Conn): Swarm<P> {
    s.(conns := s.conns[p := c])
  }

  /** A peer announces a piece; the answer says whether the index was acceptable. */
  function Have<P(==)>(s: Swarm<P>, p: P, i: nat): Outcome<(Swarm<P>, bool)>
    requires p in s.conns
  {
    var c := s.conns[p];
    if s.info.Some? && i >= s.info.value then Done((s, false))
    else if s.HasPiece(c, i) then Done((s, true))
    else
      var rel :- if s.info.Some? then IncAll(s.rel, {i}) else Done(s.rel);
      Done((Put(s, p, c.(pieces := c.pieces + {i})).(rel := rel), true))
  }

  /** From now on the peer counts as having everything. */
  function HaveAll<P(==)>(s: Swarm<P>, p: P): Outcome<Swarm<P>>
    requires p in s.conns
  {
    var c := s.conns[p];
    var rel :- if s.info.Some? then DecAll(s.rel, c.pieces) else Done(s.rel);
    Done(Put(s, p, c.(pieces := {}, haveAll := true)).(rel := rel, withAll := s.withAll + {p}))
  }

  function BitsBelow(bits: set<nat>, n: nat): set<nat> {
    set i | i in bits && i < n
  }

  /** A peer sends the set of its pieces.  Bits beyond the known number of pieces are ignored. */
  function Bitfield<P(==)>(s: Swarm<P>, p: P, sent: set<nat>): Outcome<Swarm<P>>
    requires p in s.conns
  {
    var c := s.conns[p];
    var bits := if s.info.Some? then BitsBelow(sent, s.info.value) else sent;
    if s.info.Some? && |bits| == s.info.value then HaveAll(s, p)
    else if c.haveAll && p !in s.withAll then Panic("peer is not among those with all pieces")
    else if c.haveAll && c.pieces != {} then
      Panic("if peer has all, we expect no individual peer pieces to be set")
    else
      var lost, gained := c.pieces - bits, bits - c.pieces;
      var rel1 :- if s.info.Some? then DecAll(s.rel, lost) else Done(s.rel);
      var rel2 :- if s.info.Some? then IncAll(rel1, gained) else Done(rel1);
      Done(Put(s, p, c.(pieces := bits, haveAll := false))
           .(rel := rel2, withAll := if c.haveAll then s.withAll - {p} else s.withAll))
  }

  /** Take a peer out of all counts. */
  function DecPeer<P(==)>(s: Swarm<P>, p: P): Outcome<Swarm<P>>
    requires p in s.conns
  {
    if p in s.withAll then Done(s.(withAll := s.withAll - {p}))
    else if s.info.None? then Done(s)
    else
      var rel :- DecAll(s.rel, s.conns[p].pieces);
      Done(s.(rel := rel))
  }

  function HaveNone<P(==)>(s: Swarm<P>, p: P): Outcome<Swarm<P>>
    requires p in s.conns
  {
    var c := s.conns[p];
    var s1 :- if c.haveAll then Done(s) else DecPeer(s, p);
    Done(Put(s1, p, c.(pieces := {}, haveAll := false)))
  }

  /** Close a connection; it stays listed until it is removed. */
  function Close<P(==)>(s: Swarm<P>, p: P): Outcome<Swarm<P>>
    requires p in s.conns
  {
    if s.conns[p].closed then Done(s)
    else
      var s1 :- DecPeer(s, p);
      Done(Put(s1, p, s.conns[p].(closed := true)))
  }

  function Remove<P(==)>(s: Swarm<P>, p: P): Outcome<Swarm<P>>
    requires p in s.conns
  {
    if !s.conns[p].closed then Panic("connection is not closed")
    else if |s.conns| == 1 && s.withAll != {} then Panic("a peer with all pieces is left")
    else Done(s.(conns := s.conns - {p}))
  }

  /** The listed peers that count for a piece when the info arrives. */
  function Claimants<P(==)>(s: Swarm<P>, n: nat, i: nat): set<P> {
    set p | p in s.conns && p !in s.withAll && s.(info := Some(n)).HasPiece(s.conns[p], i)
  }

  /** The number of pieces becomes known: count afresh, then forget impossible claims. */
  function SetInfo<P(==)>(s: Swarm<P>, n: nat): Swarm<P> {
    Swarm(Some(n),
          map p | p in s.conns :: s.conns[p].(pieces := BitsBelow(s.conns[p].pieces, n)),
          s.withAll,
          seq(n, i requires 0 <= i < n => |Claimants(s, n, i)|))
  }

  // -------------------------------------------------------------- invariant

  /** The open peers that have claimed a piece individually. */
  function Holders<P(==)>(conns: map<P, Conn>, i: nat): set<P> {
    set p | p in conns && !conns[p].closed && i in conns[p].pieces
  }

  /** The open peers that have a piece. */
  function Having<P(==)>(s: Swarm<P>, i: nat): set<P> {
    set p | p in s.conns && !s.conns[p].closed && s.HasPiece(s.conns[p], i)
  }

  /** `withAll` holds exactly the open peers with everything, and these claim no single piece. */
  ghost predicate ConnsRight<P>(s: Swarm<P>) {
    && s.withAll <= s.conns.Keys
    && (forall p | p in s.conns :: p in s.withAll <==> !s.conns[p].closed && s.conns[p].haveAll)
    && (forall p | p in s.withAll :: s.conns[p].pieces == {})
  }

  ghost predicate PiecesBelow<P>(conns: map<P, Conn>, n: nat) {
    forall p, x | p in conns && x in conns[p].pieces :: x < n
  }

  ghost predicate Counted<P>(conns: map<P, Conn>, rel: seq<int>) {
    forall i | 0 <= i < |rel| :: rel[i] == |Holders(conns, i)|
  }

  ghost predicate Inv<P>(s: Swarm<P>) {
    && ConnsRight(s)
    && (s.info.Some? ==>
          && |s.rel| == s.info.value
          && PiecesBelow(s.conns, s.info.value)
          && Counted(s.conns, s.rel))
  }

  /** The availability that the program reports is the number of open peers having the piece. */
  lemma AvailabilityIsRight<P>(s: Swarm<P>, i: nat)
    requires Inv(s) && s.info.Some? && i < s.info.value
    ensures |s.withAll| + s.rel[i] == |Having(s, i)|
  {
    forall p | p in s.conns
      ensures p in Having(s, i) <==> p in s.withAll || p in Holders(s.conns, i)
    {
      if |s.conns[p].pieces| == s.info.value {
        Full(s.conns[p].pieces, s.info.value, i);
      }
    }
    assert Having(s, i) == s.withAll + Holders(s.conns, i);
    assert s.withAll !! Holders(s.conns, i);
  }

  /** A set of `n` numbers below `n` holds them all. */
  lemma {:induction false} Full(xs: set<nat>, n: nat, i: nat)
    requires |xs| == n && i < n && forall x | x in xs :: x < n
    ensures i in xs
  {
    if i !in xs {
      Crowded(xs + {i}, n);
    }
  }

  lemma {:induction false} Crowded(xs: set<nat>, n: nat)
    requires forall x | x in xs :: x < n
    ensures |xs| <= n
  {
    if n == 0 {
      assert xs == {};
    } else {
      Crowded(xs - {n - 1}, n - 1);
    }
  }

  // ------------------------------------------------------ counting one change

  function Bit(b: bool): int {
    if b then 1 else 0
  }

  /** Replacing one connection changes a count by that connection's share. */
  lemma HoldersPut<P>(conns: map<P, Conn>, p: P, c: Conn, i: nat)
    requires p in conns
    ensures |Holders(conns[p := c], i)| ==
            |Holders(conns, i)| + Bit(!c.closed && i in c.pieces) - Bit(!conns[p].closed && i in conns[p].pieces)
  {
    HoldersApart(conns, p, i);
    HoldersApart(conns[p := c], p, i);
    assert conns[p := c] - {p} == conns - {p};
  }

  lemma HoldersApart<P>(conns: map<P, Conn>, p: P, i: nat)
    requires p in conns
    ensures |Holders(conns, i)| == |Holders(conns - {p}, i)| + Bit(!conns[p].closed && i in conns[p].pieces)
  {
    var rest := Holders(conns - {p}, i);
    assert p !in rest;
    if !conns[p].closed && i in conns[p].pieces {
      assert Holders(conns, i) == rest + {p};
    } else {
      assert Holders(conns, i) == rest;
    }
  }

  /** The counters after one connection changed. */
  ghost predicate CountsMoved(rel: seq<int>, rel1: seq<int>, c: Conn, c1: Conn) {
    && |rel1| == |rel|
    && forall i | 0 <= i < |rel| ::
         rel1[i] == rel[i] + Bit(!c1.closed && i in c1.pieces) - Bit(!c.closed && i in c.pieces)
  }

  lemma PutKeeps<P>(s: Swarm<P>, p: P, c: Conn, withAll: set<P>, rel: seq<int>)
    requires Inv(s) && p in s.conns
    requires withAll == (if !c.closed && c.haveAll then s.withAll + {p} else s.withAll - {p})
    requires !c.closed && c.haveAll ==> c.pieces == {}
    requires s.info.Some? ==> CountsMoved(s.rel, rel, s.conns[p], c) && forall x | x in c.pieces :: x < s.info.value
    ensures Inv(Put(s, p, c).(rel := rel, withAll := withAll))
  {
    if s.info.Some? {
      forall i | 0 <= i < |rel|
        ensures rel[i] == |Holders(s.conns[p := c], i)|
      {
        HoldersPut(s.conns, p, c, i);
      }
    }
  }

  /** What an open peer has claimed is counted, so it can be taken off the counters. */
  lemma DecAllWorks<P>(s: Swarm<P>, p: P, xs: set<nat>)
    requires Inv(s) && s.info.Some? && p in s.conns && !s.conns[p].closed && xs <= s.conns[p].pieces
    ensures DecAll(s.rel, xs).Done? && |DecAll(s.rel, xs).value| == |s.rel|
    ensures forall i | 0 <= i < |s.rel| :: DecAll(s.rel, xs).value[i] == s.rel[i] - Bit(i in xs)
  {
    forall x | x in xs
      ensures x < |s.rel| && s.rel[x] > 0
    {
      assert p in Holders(s.conns, x);
    }
  }

  // ------------------------------------------------- what every step keeps

  /** Nothing is known anew about the other peers. */
  ghost predicate OthersSame<P>(s: Swarm<P>, s1: Swarm<P>, p: P) {
    p in s1.conns && s1.conns.Keys == s.conns.Keys && s1.conns - {p} == s.conns - {p}
  }

  lemma HaveKeeps<P>(s: Swarm<P>, p: P, i: nat)
    requires Inv(s) && p in s.conns && !s.conns[p].closed
    ensures Have(s, p, i).Done?
    ensures var (s1, ok) := Have(s, p, i).value;
            && Inv(s1) && (ok <==> s.info.None? || i < s.info.value)
            && OthersSame(s, s1, p) && (ok ==> s1.HasPiece(s1.conns[p], i))
  {
    var c := s.conns[p];
    if !(s.info.Some? && i >= s.info.value) && !s.HasPiece(c, i) {
      var (s1, ok) := Have(s, p, i).value;
      PutKeeps(s, p, c.(pieces := c.pieces + {i}), s.withAll, s1.rel);
      assert s1 == Put(s, p, c.(pieces := c.pieces + {i})).(rel := s1.rel, withAll := s.withAll);
    }
  }

  lemma HaveAllKeeps<P>(s: Swarm<P>, p: P)
    requires Inv(s) && p in s.conns && !s.conns[p].closed
    ensures HaveAll(s, p).Done? && Inv(HaveAll(s, p).value)
    ensures OthersSame(s, HaveAll(s, p).value, p) && HaveAll(s, p).value.conns[p].haveAll
  {
    if s.info.Some? {
      DecAllWorks(s, p, s.conns[p].pieces);
    }
    var s1 := HaveAll(s, p).value;
    PutKeeps(s, p, s1.conns[p], s1.withAll, s1.rel);
  }

  function Known<P(==)>(s: Swarm<P>, sent: set<nat>): set<nat> {
    if s.info.Some? then BitsBelow(sent, s.info.value) else sent
  }

  ghost predicate BitsMoved(rel: seq<int>, rel1: seq<int>, lost: set<nat>, gained: set<nat>) {
    |rel1| == |rel| && forall i | 0 <= i < |rel| :: rel1[i] == rel[i] - Bit(i in lost) + Bit(i in gained)
  }

  /** A bitfield that does not hold everything replaces the peer's pieces and moves the counters. */
  lemma BitfieldWorks<P>(s: Swarm<P>, p: P, sent: set<nat>)
    requires Inv(s) && p in s.conns && !s.conns[p].closed
    requires !(s.info.Some? && |Known(s, sent)| == s.info.value)
    ensures Bitfield(s, p, sent).Done?
    ensures var c, bits, s1 := s.conns[p], Known(s, sent), Bitfield(s, p, sent).value;
            && s1 == Put(s, p, c.(pieces := bits, haveAll := false)).(rel := s1.rel, withAll := s.withAll - {p})
            && (s.info.None? ==> s1.rel == s.rel)
            && (s.info.Some? ==> BitsMoved(s.rel, s1.rel, c.pieces - bits, bits - c.pieces))
  {
    var c, bits := s.conns[p], Known(s, sent);
    if s.info.Some? {
      DecAllWorks(s, p, c.pieces - bits);
    }
    if !c.haveAll {
      assert s.withAll - {p} == s.withAll;
    }
  }

  lemma BitfieldKeeps<P>(s: Swarm<P>, p: P, sent: set<nat>)
    requires Inv(s) && p in s.conns && !s.conns[p].closed
    ensures Bitfield(s, p, sent).Done?
    ensures var s1 := Bitfield(s, p, sent).value;
            && Inv(s1) && OthersSame(s, s1, p)
            && forall i: nat | s.info.Some? ==> i < s.info.value :: s1.HasPiece(s1.conns[p], i) <==> i in sent
  {
    var c := s.conns[p];
    var bits := Known(s, sent);
    if s.info.Some? && |bits| == s.info.value {
      HaveAllKeeps(s, p);
      forall i: nat | i < s.info.value
        ensures i in sent
      {
        Full(bits, s.info.value, i);
      }
    } else {
      BitfieldWorks(s, p, sent);
      var s1 := Bitfield(s, p, sent).value;
      PutKeeps(s, p, s1.conns[p], s1.withAll, s1.rel);
    }
  }

  lemma DecPeerWorks<P>(s: Swarm<P>, p: P)
    requires Inv(s) && p in s.conns && !s.conns[p].closed
    ensures DecPeer(s, p).Done?
    ensures var s1 := DecPeer(s, p).value;
            && s1 == s.(rel := s1.rel, withAll := s.withAll - {p})
            && (s.info.Some? ==>
                  && |s1.rel| == |s.rel|
                  && forall i | 0 <= i < |s.rel| :: s1.rel[i] == s.rel[i] - Bit(i in s.conns[p].pieces))
  {
    if p !in s.withAll {
      assert s.withAll - {p} == s.withAll;
      if s.info.Some? {
        DecAllWorks(s, p, s.conns[p].pieces);
      }
    }
  }

  lemma CloseKeeps<P>(s: Swarm<P>, p: P)
    requires Inv(s) && p in s.conns
    ensures Close(s, p).Done? && Inv(Close(s, p).value)
    ensures OthersSame(s, Close(s, p).value, p) && Close(s, p).value.conns[p].closed
  {
    if !s.conns[p].closed {
      DecPeerWorks(s, p);
      var s1 := DecPeer(s, p).value;
      PutKeeps(s, p, s.conns[p].(closed := true), s1.withAll, s1.rel);
    }
  }

  lemma RemoveKeeps<P>(s: Swarm<P>, p: P)
    requires Inv(s) && p in s.conns && s.conns[p].closed
    ensures Remove(s, p).Done? && Inv(Remove(s, p).value)
  {
    if |s.conns| == 1 {
      assert s.conns.Keys == {p} by {
        assert |s.conns.Keys - {p}| == 0;
      }
      assert s.withAll == {};
    }
    forall i: nat
      ensures Holders(s.conns - {p}, i) == Holders(s.conns, i)
    {
    }
  }

  /** A removed connection is no longer listed, and nothing else changes; only closed ones can be removed. */
  lemma RemoveDoes<P>(s: Swarm<P>, p: P)
    requires Inv(s) && p in s.conns
    ensures Remove(s, p).Done? <==> s.conns[p].closed
    ensures Remove(s, p).Done? ==> Remove(s, p).value == s.(conns := s.conns - {p})
  {
    if s.conns[p].closed {
      RemoveKeeps(s, p);
    }
  }

  /**
   * A peer that takes everything back: this is accounted for if and only if it had not claimed to
   * have everything before.
   */
  lemma HaveNoneKeepsIff<P>(s: Swarm<P>, p: P)
    requires Inv(s) && p in s.conns && !s.conns[p].closed
    ensures HaveNone(s, p).Done?
    ensures OthersSame(s, HaveNone(s, p).value, p) && HaveNone(s, p).value.conns[p] == Conn({}, false, false)
    ensures Inv(HaveNone(s, p).value) <==> !s.conns[p].haveAll
  {
    var c := s.conns[p].(pieces := {}, haveAll := false);
    if s.conns[p].haveAll {
      assert p in HaveNone(s, p).value.withAll;
    } else {
      DecPeerWorks(s, p);
      var s1 := DecPeer(s, p).value;
      PutKeeps(s, p, c, s1.withAll, s1.rel);
    }
  }

  /** After that the program reports one peer too many for every piece, if the peer had claimed everything. */
  lemma HaveNoneAvailability<P>(s: Swarm<P>, p: P, i: nat)
    requires Inv(s) && p in s.conns && !s.conns[p].closed && s.info.Some? && i < s.info.value
    ensures HaveNone(s, p).Done? && |HaveNone(s, p).value.rel| == |s.rel|
    ensures var s1 := HaveNone(s, p).value;
            |s1.withAll| + s1.rel[i] == |Having(s1, i)| + Bit(s.conns[p].haveAll)
  {
    HaveNoneKeepsIff(s, p);
    var s1 := HaveNone(s, p).value;
    if s.conns[p].haveAll {
      AvailabilityIsRight(s, i);
      assert Having(s, i) == Having(s1, i) + {p};
    } else {
      AvailabilityIsRight(s1, i);
    }
  }

  /** A lone peer claims everything and takes it back: it still counts. */
  lemma HaveNoneExample()
    ensures var s: Swarm<nat> := Swarm(Some(1), map[0 := Conn({}, false, false)], {}, [0]);
            && Inv(s) && HaveAll(s, 0).Done? && HaveNone(HaveAll(s, 0).value, 0).Done?
            && var s1 := HaveNone(HaveAll(s, 0).value, 0).value;
               s1.withAll == {0} && s1.rel == [0] && Having(s1, 0) == {}
  {
    var s: Swarm<nat> := Swarm(Some(1), map[0 := Conn({}, false, false)], {}, [0]);
    assert Holders(s.conns, 0) == {};
    HaveAllKeeps(s, 0);
    var s1 := HaveNone(HaveAll(s, 0).value, 0).value;
    assert s1.rel == [0];
  }

  // --------------------------------------------------- the info arrives

  /** What a listed connection may claim when the number of pieces turns out to be `n`. */
  ghost predicate Sound(c: Conn, n: nat) {
    if c.closed then
      n > 0 ==> !c.haveAll && |c.pieces| != n && BitsBelow(c.pieces, n) == {}
    else
      !c.haveAll && |c.pieces| == n ==> BitsBelow(c.pieces, n) == c.pieces
  }

  lemma SoundPiece(c: Conn, n: nat, i: nat)
    requires Sound(c, n) && i < n && !(c.haveAll && !c.closed)
    ensures (c.haveAll || |c.pieces| == n || i in c.pieces) <==> !c.closed && i in BitsBelow(c.pieces, n)
  {
    if c.closed {
      assert i in c.pieces ==> i in BitsBelow(c.pieces, n);
    } else if |c.pieces| == n {
      Full(c.pieces, n, i);
    }
  }

  lemma UnsoundPiece(c: Conn, n: nat) returns (i: nat)
    requires !Sound(c, n) && !(c.haveAll && !c.closed)
    ensures i < n && (c.haveAll || |c.pieces| == n || i in c.pieces) && !(!c.closed && i in c.pieces)
  {
    if c.closed {
      if c.haveAll || |c.pieces| == n {
        i := 0;
      } else {
        i :| i in BitsBelow(c.pieces, n);
      }
    } else {
      var below := BitsBelow(c.pieces, n);
      assert below < c.pieces;
      assert |below| < n by {
        assert |c.pieces - below| > 0;
      }
      i := Missing(below, n);
    }
  }

  lemma {:induction false} Missing(xs: set<nat>, n: nat) returns (i: nat)
    requires |xs| < n
    ensures i < n && i !in xs
  {
    if n - 1 !in xs {
      i := n - 1;
    } else {
      i := Missing(xs - {n - 1}, n - 1);
    }
  }

  /** The claims counted for a piece are at least those of the peers that hold it. */
  lemma HoldersClaim<P>(s: Swarm<P>, n: nat, i: nat)
    requires Inv(s) && s.info.None? && i < n
    ensures Holders(SetInfo(s, n).conns, i) <= Claimants(s, n, i)
  {
  }

  /**
   * When the info arrives the counters come out right if and only if every listed connection is
   * sound: an open one must not have claimed exactly as many pieces as there are while some of them
   * do not exist, and a closed one must not have claimed any piece.
   */
  lemma SetInfoKeepsIff<P>(s: Swarm<P>, n: nat)
    requires Inv(s) && s.info.None?
    ensures Inv(SetInfo(s, n)) <==> forall p | p in s.conns :: Sound(s.conns[p], n)
  {
    if forall p | p in s.conns :: Sound(s.conns[p], n) {
      SetInfoKeeps(s, n);
    } else {
      var p :| p in s.conns && !Sound(s.conns[p], n);
      var i := UnsoundPiece(s.conns[p], n);
      HoldersClaim(s, n, i);
      assert p in Claimants(s, n, i) && p !in Holders(SetInfo(s, n).conns, i);
      Smaller(Holders(SetInfo(s, n).conns, i), Claimants(s, n, i), p);
      assert SetInfo(s, n).rel[i] != |Holders(SetInfo(s, n).conns, i)|;
    }
  }

  lemma Smaller<P>(xs: set<P>, ys: set<P>, p: P)
    requires xs <= ys && p in ys && p !in xs
    ensures |xs| < |ys|
  {
    assert |ys - xs| > 0;
    assert ys == xs + (ys - xs);
  }

  lemma SetInfoKeeps<P>(s: Swarm<P>, n: nat)
    requires Inv(s) && s.info.None? && forall p | p in s.conns :: Sound(s.conns[p], n)
    ensures Inv(SetInfo(s, n))
  {
    var s1 := SetInfo(s, n);
    forall i | 0 <= i < n
      ensures s1.rel[i] == |Holders(s1.conns, i)|
    {
      forall p | p in s.conns
        ensures p in Claimants(s, n, i) <==> p in Holders(s1.conns, i)
      {
        if p !in s.withAll {
          SoundPiece(s.conns[p], n, i);
        }
      }
      assert Claimants(s, n, i) == Holders(s1.conns, i);
    }
  }

  /** A peer that claims as many pieces as there are, one of them impossible, is counted for a piece it lacks. */
  lemma UnsoundExample()
    ensures var s: Swarm<nat> := Swarm(None, map[0 := Conn({0, 5}, false, false)], {}, []);
            && Inv(s) && !Inv(SetInfo(s, 2))
            && SetInfo(s, 2).rel[1] == 1 && 1 !in SetInfo(s, 2).conns[0].pieces
  {
    var s: Swarm<nat> := Swarm(None, map[0 := Conn({0, 5}, false, false)], {}, []);
    assert Claimants(s, 2, 1) == {0};
    var c := SetInfo(s, 2).conns[0];
    assert Holders(SetInfo(s, 2).conns, 1) == {};
  }

  // ------------------------------------------------------------- whole runs

  datatype Event<P> =
    | Joined(p: P)
    | GotHave(p: P, i: nat)
    | GotBitfield(p: P, sent: set<nat>)
    | GotHaveAll(p: P)
    | GotHaveNone(p: P)
    | Closed(p: P)
    | Removed(p: P)
    | GotInfo(n: nat)

  /** Messages come from open connections only; the two exact conditions above are met. */
  ghost predicate Enabled<P>(s: Swarm<P>, e: Event<P>) {
    match e
    case Joined(p) => p !in s.conns
    case GotHaveNone(p) => p in s.conns && !s.conns[p].closed && !s.conns[p].haveAll
    case Closed(p) => p in s.conns
    case Removed(p) => p in s.conns && s.conns[p].closed
    case GotInfo(n) => s.info.None? && forall p | p in s.conns :: Sound(s.conns[p], n)
    case _ => e.p in s.conns && !s.conns[e.p].closed
  }

  ghost function Step<P>(s: Swarm<P>, e: Event<P>): Outcome<Swarm<P>>
    requires Enabled(s, e)
  {
    match e
    case Joined(p) => Done(Put(s, p, Conn({}, false, false)))
    case GotHave(p, i) =>
      var (s1, _) :- Have(s, p, i);
      Done(s1)
    case GotBitfield(p, sent) => Bitfield(s, p, sent)
    case GotHaveAll(p) => HaveAll(s, p)
    case GotHaveNone(p) => HaveNone(s, p)
    case Closed(p) => Close(s, p)
    case Removed(p) => Remove(s, p)
    case GotInfo(n) => Done(SetInfo(s, n))
  }

  lemma JoinedKeeps<P>(s: Swarm<P>, p: P)
    requires Inv(s) && p !in s.conns
    ensures Inv(Put(s, p, Conn({}, false, false)))
  {
    forall i: nat
      ensures Holders(s.conns[p := Conn({}, false, false)], i) == Holders(s.conns, i)
    {
    }
  }

  lemma StepKeeps<P>(s: Swarm<P>, e: Event<P>)
    requires Inv(s) && Enabled(s, e)
    ensures Step(s, e).Done? && Inv(Step(s, e).value)
  {
    match e
    case Joined(p) => JoinedKeeps(s, p);
    case GotHave(p, i) => HaveKeeps(s, p, i);
    case GotBitfield(p, sent) => BitfieldKeeps(s, p, sent);
    case GotHaveAll(p) => HaveAllKeeps(s, p);
    case GotHaveNone(p) => HaveNoneKeepsIff(s, p);
    case Closed(p) => CloseKeeps(s, p);
    case Removed(p) => RemoveKeeps(s, p);
    case GotInfo(n) => SetInfoKeeps(s, n);
  }

  ghost predicate Runnable<P>(s: Swarm<P>, es: seq<Event<P>>)
    decreases es
  {
    es == [] || (Enabled(s, es[0]) && (Step(s, es[0]).Done? ==> Runnable(Step(s, es[0]).value, es[1..])))
  }

  ghost function Run<P>(s: Swarm<P>, es: seq<Event<P>>): Outcome<Swarm<P>>
    requires Runnable(s, es)
    decreases es
  {
    if es == [] then Done(s)
    else
      var s1 :- Step(s, es[0]);
      Run(s1, es[1..])
  }

  /** A torrent without peers and without info satisfies the invariant. */
  lemma FreshInv<P>()
    ensures Inv(Swarm<P>.Swarm(None, map[], {}, []))
  {
  }

  /** Over every run the counters are right and no panic is reached; once all peers are closed all are zero. */
  lemma {:induction false} RunKeeps<P>(s: Swarm<P>, es: seq<Event<P>>)
    requires Inv(s) && Runnable(s, es)
    ensures Run(s, es).Done? && Inv(Run(s, es).value)
    ensures var s1 := Run(s, es).value;
            (forall p | p in s1.conns :: s1.conns[p].closed) && s1.info.Some? ==>
              s1.withAll == {} && forall i | 0 <= i < |s1.rel| :: s1.rel[i] == 0
    decreases es
  {
    if es != [] {
      StepKeeps(s, es[0]);
      RunKeeps(Step(s, es[0]).value, es[1..]);
    } else if (forall p | p in s.conns :: s.conns[p].closed) && s.info.Some? {
      assert s.withAll == {};
      forall i | 0 <= i < |s.rel|
        ensures s.rel[i] == 0
      {
        assert Holders(s.conns, i) == {};
      }
    }
  }
}
