/** The availability counters as an object that is updated in place, tied to Availability. */
module AvailabilityTables {
  import opened Common
  import opened Availability

  lemma MovedSame(rel: seq<int>, rel1: seq<int>, rel2: seq<int>, lost: set<nat>, gained: set<nat>)
    requires BitsMoved(rel, rel1, lost, gained) && BitsMoved(rel, rel2, lost, gained)
    ensures rel1 == rel2
  {
    assert forall i | 0 <= i < |rel| :: rel1[i] == rel2[i];
  }

  class Counters<P(==)> {
    var info: Option<nat>
    var conns: map<P, Conn>
    var connsWithAllPieces: set<P>
    var relativeAvailability: seq<int>

    ghost function View(): Swarm<P>
      reads this
    {
      Swarm(info, conns, connsWithAllPieces, relativeAvailability)
    }

    method IncPieceAvailability(i: nat)
      requires info.Some? ==> i < |relativeAvailability|
      modifies this`relativeAvailability
      ensures relativeAvailability ==
              if info.Some? then old(relativeAvailability)[i := old(relativeAvailability[i]) + 1]
              else old(relativeAvailability)
    {
      if info.Some? {
        relativeAvailability := relativeAvailability[i := relativeAvailability[i] + 1];
      }
    }

    /** The precondition is what keeps the program from its panic. */
    method DecPieceAvailability(i: nat)
      requires info.Some? ==> i < |relativeAvailability| && relativeAvailability[i] > 0
      modifies this`relativeAvailability
      ensures relativeAvailability ==
              if info.Some? then old(relativeAvailability)[i := old(relativeAvailability[i]) - 1]
              else old(relativeAvailability)
    {
      if info.Some? {
        relativeAvailability := relativeAvailability[i := relativeAvailability[i] - 1];
      }
    }

    method DecEach(xs: set<nat>)
      requires info.Some? ==> DecAll(relativeAvailability, xs).Done?
      modifies this`relativeAvailability
      ensures if info.Some? then DecAll(old(relativeAvailability), xs) == Done(relativeAvailability)
              else relativeAvailability == old(relativeAvailability)
    {
      ghost var was := relativeAvailability;
      var todo := xs;
      while todo != {}
        invariant todo <= xs && |relativeAvailability| == |was|
        invariant info.None? ==> relativeAvailability == was
        invariant info.Some? ==> forall i | 0 <= i < |was| :: relativeAvailability[i] == was[i] - Bit(i in xs - todo)
        decreases todo
      {
        var x :| x in todo;
        DecPieceAvailability(x);
        todo := todo - {x};
      }
      if info.Some? {
        assert relativeAvailability == DecAll(was, xs).value;
      }
    }

    method SentHave(p: P, i: nat) returns (ok: bool)
      requires Inv(View()) && p in conns && !conns[p].closed
      modifies this
      ensures Have(old(View()), p, i) == Done((View(), ok))
    {
      if info.Some? && i >= info.value {
        return false;
      }
      var c := conns[p];
      if c.haveAll || (info.Some? && |c.pieces| == info.value) || i in c.pieces {
        return true;
      }
      ghost var was := relativeAvailability;
      IncPieceAvailability(i);
      if info.Some? {
        assert relativeAvailability == IncAll(was, {i}).value;
      }
      conns := conns[p := c.(pieces := c.pieces + {i})];
      return true;
    }

    method HasAllPieces(p: P)
      requires Inv(View()) && p in conns && !conns[p].closed
      modifies this
      ensures HaveAll(old(View()), p) == Done(View())
    {
      HaveAllKeeps(View(), p);
      DecEach(conns[p].pieces);
      connsWithAllPieces := connsWithAllPieces + {p};
      conns := conns[p := conns[p].(haveAll := true, pieces := {})];
    }

    /** Every piece whose bit changes is counted up or down, one after the other. */
    method CountChanges(had: set<nat>, changed: set<nat>)
      requires info.Some? ==> DecAll(relativeAvailability, changed * had).Done?
      requires info.Some? ==> forall x | x in changed :: x < |relativeAvailability|
      modifies this`relativeAvailability
      ensures info.None? ==> relativeAvailability == old(relativeAvailability)
      ensures info.Some? ==> BitsMoved(old(relativeAvailability), relativeAvailability, changed * had, changed - had)
    {
      ghost var was := relativeAvailability;
      var todo := changed;
      while todo != {}
        invariant todo <= changed && |relativeAvailability| == |was|
        invariant info.None? ==> relativeAvailability == was
        invariant info.Some? ==> BitsMoved(was, relativeAvailability, (changed - todo) * had, changed - todo - had)
        decreases todo
      {
        var x :| x in todo;
        if x in had {
          assert x in changed * had;
          DecPieceAvailability(x);
        } else {
          IncPieceAvailability(x);
        }
        todo := todo - {x};
      }
    }

    /** Put `bits` in the place of the peer's pieces. */
    method ReplacePieces(p: P, bits: set<nat>)
      requires p in conns
      requires info.Some? ==> DecAll(relativeAvailability, conns[p].pieces - bits).Done?
      requires info.Some? ==> forall x | x in bits :: x < |relativeAvailability|
      modifies this
      ensures View() == Put(old(View()), p, old(conns[p]).(pieces := bits, haveAll := false)).(
                          rel := relativeAvailability,
                          withAll := if old(conns[p].haveAll) then old(connsWithAllPieces) - {p}
                                     else old(connsWithAllPieces))
      ensures info.None? ==> relativeAvailability == old(relativeAvailability)
      ensures info.Some? ==> BitsMoved(old(relativeAvailability), relativeAvailability,
                                       old(conns[p].pieces) - bits, bits - old(conns[p].pieces))
    {
      var had := conns[p].pieces;
      if conns[p].haveAll {
        connsWithAllPieces := connsWithAllPieces - {p};
      }
      var changed := (bits - had) + (had - bits);
      assert changed * had == had - bits && changed - had == bits - had;
      CountChanges(had, changed);
      conns := conns[p := conns[p].(haveAll := false, pieces := (had - changed) + (changed - had))];
      assert (had - changed) + (changed - had) == bits;
    }

    method SentBitfield(p: P, sent: set<nat>)
      requires Inv(View()) && p in conns && !conns[p].closed
      modifies this
      ensures Bitfield(old(View()), p, sent) == Done(View())
    {
      var bits := if info.Some? then BitsBelow(sent, info.value) else sent;
      if info.Some? && |bits| == info.value {
        HasAllPieces(p);
        return;
      }
      ghost var was := View();
      BitfieldWorks(was, p, sent);
      if info.Some? {
        DecAllWorks(was, p, conns[p].pieces - bits);
      }
      ReplacePieces(p, bits);
      if info.Some? {
        MovedSame(was.rel, relativeAvailability, Bitfield(was, p, sent).value.rel,
                  was.conns[p].pieces - bits, bits - was.conns[p].pieces);
      }
    }

    method DecPeerPieceAvailability(p: P)
      requires Inv(View()) && p in conns && !conns[p].closed
      modifies this
      ensures DecPeer(old(View()), p) == Done(View())
    {
      DecPeerWorks(View(), p);
      if p in connsWithAllPieces {
        connsWithAllPieces := connsWithAllPieces - {p};
        return;
      }
      DecEach(conns[p].pieces);
    }

    method SentHaveNone(p: P)
      requires Inv(View()) && p in conns && !conns[p].closed
      modifies this
      ensures HaveNone(old(View()), p) == Done(View())
    {
      if !conns[p].haveAll {
        DecPeerPieceAvailability(p);
      }
      conns := conns[p := conns[p].(haveAll := false, pieces := {})];
    }

    method CloseConn(p: P)
      requires Inv(View()) && p in conns
      modifies this
      ensures Close(old(View()), p) == Done(View())
    {
      if conns[p].closed {
        return;
      }
      DecPeerPieceAvailability(p);
      conns := conns[p := conns[p].(closed := true)];
    }

    /** How many listed peers outside `connsWithAllPieces` have a piece. */
    method SelectivePieceAvailability(i: nat) returns (count: nat)
      requires info.Some?
      ensures count == |Claimants(View(), info.value, i)|
    {
      count := 0;
      var todo := conns.Keys;
      ghost var seen: set<P> := {};
      while todo != {}
        invariant todo <= conns.Keys && count == |seen|
        invariant seen == set p | p in Claimants(View(), info.value, i) && p !in todo
        decreases todo
      {
        var p :| p in todo;
        todo := todo - {p};
        var c := conns[p];
        if p !in connsWithAllPieces && (c.haveAll || |c.pieces| == info.value || i in c.pieces) {
          count := count + 1;
          seen := seen + {p};
        }
      }
      assert seen == Claimants(View(), info.value, i);
    }

    method OnSetInfo(n: nat)
      requires info.None?
      modifies this
      ensures View() == SetInfo(old(View()), n)
    {
      ghost var was := View();
      info := Some(n);
      relativeAvailability := [];
      var i := 0;
      while i < n
        invariant 0 <= i <= n && |relativeAvailability| == i
        invariant View() == was.(info := Some(n), rel := relativeAvailability)
        invariant forall j | 0 <= j < i :: relativeAvailability[j] == |Claimants(was, n, j)|
      {
        var count := SelectivePieceAvailability(i);
        assert Claimants(View(), n, i) == Claimants(was, n, i);
        relativeAvailability := relativeAvailability + [count];
        i := i + 1;
      }
      conns := map p | p in conns :: conns[p].(pieces := BitsBelow(conns[p].pieces, n));
    }
  }
}
