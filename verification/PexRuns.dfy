/** The log of a torrent together with all its readers, over whole runs. */
module PexRuns {
  import opened Pex

  /** A connection that gets messages: how far it has come, and what its receiver holds. */
  datatype Reader = Reader(pos: nat, held: set<Addr>)

  datatype State = State(
    feed: seq<Event>,
    hold: seq<Event>,            // drops held back
    nc: int,
    msg0: Factory,
    conns: set<Addr>,            // who is connected and listed
    readers: map<nat, Reader>)

  const FRESH := State([], [], 0, EMPTY, {}, map[])

  // ------------------------------------------------------------------ steps

  function Log(s: State, es: seq<Event>): State {
    if es == [] then s
    else
      var s1 := Log(s, es[..|es| - 1]);
      var e := es[|es| - 1];
      s1.(feed := s1.feed + [e], msg0 := Append(s1.msg0, e))
  }

  predicate Flushes(s: State) {
    s.nc + 1 >= TARG_ADDED
  }

  function Connect(s: State, a: Addr, flags: nat): State {
    var s1 := s.(nc := s.nc + 1, conns := s.conns + {a});
    var s2 := if Flushes(s) then Log(s1, s.hold).(hold := []) else s1;
    Log(s2, [Event(false, a, flags)])
  }

  predicate HoldsBack(s: State) {
    s.nc - 1 < TARG_ADDED && |s.hold| < MAX_HOLD
  }

  function Disconnect(s: State, a: Addr, flags: nat): State {
    var e := Event(true, a, flags);
    var s1 := s.(nc := s.nc - 1, conns := s.conns - {a});
    if HoldsBack(s) then s1.(hold := s.hold + [e]) else Log(s1, [e])
  }

  /** A reader after its next message, if there is something to tell. */
  function Told(feed: seq<Event>, msg0: Factory, r: Reader): Reader
    requires r.pos <= |feed|
  {
    var (m, last) := Genmsg(feed, msg0, r.pos);
    if m.Len() == 0 then r else Reader(last, Apply(r.held, m))
  }

  function Send(s: State, r: nat): State
    requires r in s.readers && s.readers[r].pos <= |s.feed|
  {
    s.(readers := s.readers[r := Told(s.feed, s.msg0, s.readers[r])])
  }

  // -------------------------------------------------------------- invariant

  ghost predicate Drops(es: seq<Event>) {
    forall e | e in es :: e.drop
  }

  /** The compact addresses that some events are about. */
  ghost function Addrs(es: seq<Event>): set<Addr> {
    if es == [] then {}
    else
      var a := es[|es| - 1].addr;
      Addrs(es[..|es| - 1]) + if a.kind == Other then {} else {a}
  }

  ghost function Compact(conns: set<Addr>): set<Addr> {
    set a | a in conns && a.kind != Other
  }

  ghost predicate ReaderOk(s: State, r: Reader) {
    r.pos <= |s.feed| && r.held == Live(s.feed[..r.pos])
  }

  ghost predicate LogOk(s: State) {
    && Alternates(s.feed + s.hold)
    && Live(s.feed + s.hold) == Compact(s.conns)
    && Drops(s.hold) && |s.hold| <= MAX_HOLD
    && s.msg0 == AppendAll(EMPTY, s.feed)
    && s.nc == |s.conns|
  }

  ghost predicate Inv(s: State) {
    LogOk(s) && forall r | r in s.readers :: ReaderOk(s, s.readers[r])
  }

  lemma {:induction false} LogDoes(s: State, es: seq<Event>)
    ensures Log(s, es) == s.(feed := s.feed + es, msg0 := Log(s, es).msg0)
    ensures s.msg0 == AppendAll(EMPTY, s.feed) ==> Log(s, es).msg0 == AppendAll(EMPTY, s.feed + es)
  {
    if es == [] {
      assert s.feed + es == s.feed;
    } else {
      var es1, e := es[..|es| - 1], es[|es| - 1];
      LogDoes(s, es1);
      assert s.feed + es1 + [e] == s.feed + es;
      assert (s.feed + es)[..|s.feed + es| - 1] == s.feed + es1;
    }
  }

  /**
   * A connection is logged at once; when it is the 25th or a later one, the drops held back are logged
   * before it.
   */
  lemma ConnectLogs(s: State, a: Addr, flags: nat)
    requires Inv(s) && a !in s.conns
    ensures var s1 := Connect(s, a, flags);
            && s1.conns == s.conns + {a} && s1.nc == |s.conns| + 1 && s1.readers == s.readers
            && (if |s.conns| + 1 >= 25
                then s1.feed == s.feed + s.hold + [Event(false, a, flags)] && s1.hold == []
                else s1.feed == s.feed + [Event(false, a, flags)] && s1.hold == s.hold)
  {
    var s1 := s.(nc := s.nc + 1, conns := s.conns + {a});
    LogDoes(s1, s.hold);
    LogDoes(Log(s1, s.hold).(hold := []), [Event(false, a, flags)]);
    LogDoes(s1, [Event(false, a, flags)]);
  }

  /** A drop is held back if fewer than 25 connections are left and fewer than 25 are held back already. */
  lemma DisconnectLogs(s: State, a: Addr, flags: nat)
    requires Inv(s) && a in s.conns
    ensures var s1 := Disconnect(s, a, flags);
            && s1.conns == s.conns - {a} && s1.nc == |s.conns| - 1 && s1.readers == s.readers
            && (if |s.conns| - 1 < 25 && |s.hold| < 25
                then s1.feed == s.feed && s1.hold == s.hold + [Event(true, a, flags)]
                else s1.feed == s.feed + [Event(true, a, flags)] && s1.hold == s.hold)
  {
    LogDoes(s.(nc := s.nc - 1, conns := s.conns - {a}), [Event(true, a, flags)]);
  }

  /** A longer log changes nothing for the readers. */
  lemma ReadersKeep(s: State, s1: State)
    requires (forall r | r in s.readers :: ReaderOk(s, s.readers[r])) && s1.readers == s.readers
    requires s.feed <= s1.feed
    ensures forall r | r in s1.readers :: ReaderOk(s1, s1.readers[r])
  {
    forall r | r in s.readers
      ensures ReaderOk(s1, s.readers[r])
    {
      assert ReaderOk(s, s.readers[r]);
      assert s1.feed[..s.readers[r].pos] == s.feed[..s.readers[r].pos];
    }
  }

  /** Drops at the end of a log are of addresses live before them, each once. */
  lemma {:induction false} HeldBack(feed: seq<Event>, hold: seq<Event>)
    requires Alternates(feed + hold) && Drops(hold)
    ensures Alternates(feed) && Addrs(hold) <= Live(feed)
    ensures Live(feed + hold) == Live(feed) - Addrs(hold)
    decreases hold
  {
    if hold == [] {
      assert feed + hold == feed;
    } else {
      var h, e := hold[..|hold| - 1], hold[|hold| - 1];
      assert feed + hold == (feed + h) + [e];
      LiveOne(feed + h, e);
      HeldBack(feed, h);
    }
  }

  /** An event can be put before drops that are held back, if they are not about its address. */
  lemma {:induction false} PutBefore(feed: seq<Event>, hold: seq<Event>, e: Event)
    requires Alternates(feed + hold) && Drops(hold)
    requires Fits(Live(feed), e) && e.addr !in Addrs(hold)
    ensures Alternates(feed + [e] + hold)
    ensures Live(feed + [e] + hold) == After(Live(feed + hold), e)
    decreases hold
  {
    if hold == [] {
      assert feed + hold == feed && feed + [e] + hold == feed + [e];
      LiveOne(feed, e);
    } else {
      var h, d := hold[..|hold| - 1], hold[|hold| - 1];
      assert feed + hold == (feed + h) + [d] && feed + [e] + hold == (feed + [e] + h) + [d];
      LiveOne(feed + h, d);
      assert d in hold;
      PutBefore(feed, h, e);
      LiveOne(feed + [e] + h, d);
    }
  }

  // ------------------------------------------------------- what every step keeps

  lemma ConnectIs(s: State, a: Addr, flags: nat)
    requires s.msg0 == AppendAll(EMPTY, s.feed)
    ensures var s1, e := Connect(s, a, flags), Event(false, a, flags);
            var feed := (if Flushes(s) then s.feed + s.hold else s.feed) + [e];
            && s1 == State(feed, if Flushes(s) then [] else s.hold, s.nc + 1, s1.msg0, s.conns + {a}, s.readers)
            && s1.msg0 == AppendAll(EMPTY, feed)
  {
    var s1 := s.(nc := s.nc + 1, conns := s.conns + {a});
    LogDoes(s1, s.hold);
    var s2 := if Flushes(s) then Log(s1, s.hold).(hold := []) else s1;
    LogDoes(s2, [Event(false, a, flags)]);
  }

  lemma CompactAfter(conns: set<Addr>, e: Event)
    ensures Compact(if e.drop then conns - {e.addr} else conns + {e.addr}) == After(Compact(conns), e)
  {
  }

  lemma FlushKeeps(s: State, a: Addr, flags: nat)
    requires Inv(s) && a !in s.conns && Flushes(s)
    ensures Inv(Connect(s, a, flags))
  {
    var s1, e := Connect(s, a, flags), Event(false, a, flags);
    ConnectIs(s, a, flags);
    CompactAfter(s.conns, e);
    LiveOne(s.feed + s.hold, e);
    assert s1.feed + [] == s1.feed;
    ReadersKeep(s, s1);
  }

  lemma NewKeeps(s: State, a: Addr, flags: nat)
    requires Inv(s) && a !in s.conns && !Flushes(s) && a !in Addrs(s.hold)
    ensures Inv(Connect(s, a, flags))
  {
    var s1, e := Connect(s, a, flags), Event(false, a, flags);
    ConnectIs(s, a, flags);
    CompactAfter(s.conns, e);
    HeldBack(s.feed, s.hold);
    PutBefore(s.feed, s.hold, e);
    ReadersKeep(s, s1);
  }

  lemma {:induction false} AddrsCompact(es: seq<Event>)
    ensures forall a | a in Addrs(es) :: a.kind != Other
  {
    if es == [] {
    } else {
      AddrsCompact(es[..|es| - 1]);
    }
  }

  lemma BackBreaks(s: State, a: Addr, flags: nat)
    requires LogOk(s) && !Flushes(s) && a in Addrs(s.hold)
    ensures !LogOk(Connect(s, a, flags))
  {
    var s1, e := Connect(s, a, flags), Event(false, a, flags);
    ConnectIs(s, a, flags);
    HeldBack(s.feed, s.hold);
    AddrsCompact(s.hold);
    LiveOne(s.feed, e);
    if Alternates(s1.feed + s1.hold) {
      HeldBack(s1.feed, s1.hold);
    }
  }

  /**
   * A new connection is logged right if and only if the log does not still say that its address is
   * connected: the address is not one whose drop is held back, unless this very call logs it.
   */
  lemma ConnectKeepsIff(s: State, a: Addr, flags: nat)
    requires Inv(s) && a !in s.conns
    ensures Inv(Connect(s, a, flags)) <==> Flushes(s) || a !in Addrs(s.hold)
  {
    if Flushes(s) {
      FlushKeeps(s, a, flags);
    } else if a !in Addrs(s.hold) {
      NewKeeps(s, a, flags);
    } else {
      BackBreaks(s, a, flags);
    }
  }

  lemma HoldBackKeeps(s: State, a: Addr, flags: nat)
    requires Inv(s) && a in s.conns && HoldsBack(s)
    ensures Inv(Disconnect(s, a, flags))
  {
    var e := Event(true, a, flags);
    CompactAfter(s.conns, e);
    LiveOne(s.feed + s.hold, e);
    assert s.feed + (s.hold + [e]) == s.feed + s.hold + [e];
    ReadersKeep(s, Disconnect(s, a, flags));
  }

  lemma DropKeeps(s: State, a: Addr, flags: nat)
    requires Inv(s) && a in s.conns && !HoldsBack(s)
    ensures Inv(Disconnect(s, a, flags))
  {
    var s1, e := Disconnect(s, a, flags), Event(true, a, flags);
    CompactAfter(s.conns, e);
    LogDoes(s.(nc := s.nc - 1, conns := s.conns - {a}), [e]);
    HeldBack(s.feed, s.hold);
    AddrsCompact(s.hold);
    assert a.kind != Other ==> a in Compact(s.conns);
    PutBefore(s.feed, s.hold, e);
    ReadersKeep(s, s1);
  }

  /** A disconnection is always logged right, held back or not. */
  lemma DisconnectKeeps(s: State, a: Addr, flags: nat)
    requires Inv(s) && a in s.conns
    ensures Inv(Disconnect(s, a, flags))
  {
    if HoldsBack(s) {
      HoldBackKeeps(s, a, flags);
    } else {
      DropKeeps(s, a, flags);
    }
  }

  /** After a message the reader holds what was live at its new position; no message means it is up to date, and stays where it is. */
  lemma ToldRight(s: State, r: Reader)
    requires LogOk(s) && ReaderOk(s, r)
    ensures var r1 := Told(s.feed, s.msg0, r);
            && ReaderOk(s, r1)
            && (r1 == r ==> r.held == Compact(s.conns) + Addrs(s.hold))
            && (r1 != r ==> r1.pos > r.pos && Genmsg(s.feed, s.msg0, r.pos).0.Len() > 0)
  {
    HeldBack(s.feed, s.hold);
    GenmsgRight(s.feed, r.pos);
    assert s.feed[..|s.feed|] == s.feed;
  }

  lemma SendKeeps(s: State, r: nat)
    requires Inv(s) && r in s.readers
    ensures ReaderOk(s, s.readers[r]) && Inv(Send(s, r))
  {
    assert ReaderOk(s, s.readers[r]);
    ToldRight(s, s.readers[r]);
    var s1 := Send(s, r);
    forall q | q in s1.readers
      ensures ReaderOk(s1, s1.readers[q])
    {
      if q != r {
        assert ReaderOk(s, s.readers[q]);
      } else {
        assert ReaderOk(s, s1.readers[r]);
      }
    }
  }

  /** An address that comes back while its drop is held back gets lost: it is connected, but the log will say it is not. */
  lemma ReconnectLoses(a: Addr, flags: nat)
    requires a.kind != Other
    ensures var s := Connect(Disconnect(Connect(FRESH, a, flags), a, flags), a, flags);
            a in s.conns && a !in Live(s.feed + s.hold)
  {
    var on, off := Event(false, a, flags), Event(true, a, flags);
    var s1 := Connect(FRESH, a, flags);
    var s2 := Disconnect(s1, a, flags);
    var s3 := Connect(s2, a, flags);
    ConnectIs(FRESH, a, flags);
    assert s1.feed == [on] && s2.feed == [on] && s2.hold == [off];
    ConnectIs(s2, a, flags);
    assert s3.feed == [on, on] && s3.hold == [off];
    LiveOne([on, on], off);
  }

  // ------------------------------------------------------------- whole runs

  datatype Happening =
    | Connected(a: Addr, flags: nat)
    | Disconnected(a: Addr, flags: nat)
    | Joined(r: nat)
    | Left(r: nat)
    | Sent(r: nat)

  ghost predicate Enabled(s: State, h: Happening) {
    match h
    case Connected(a, _) => a !in s.conns && (Flushes(s) || a !in Addrs(s.hold))
    case Disconnected(a, _) => a in s.conns
    case Joined(r) => r !in s.readers
    case Left(r) => r in s.readers
    case Sent(r) => r in s.readers && s.readers[r].pos <= |s.feed|
  }

  ghost function Step(s: State, h: Happening): State
    requires Enabled(s, h)
  {
    match h
    case Connected(a, flags) => Connect(s, a, flags)
    case Disconnected(a, flags) => Disconnect(s, a, flags)
    case Joined(r) => s.(readers := s.readers[r := Reader(0, {})])
    case Left(r) => s.(readers := s.readers - {r})
    case Sent(r) => Send(s, r)
  }

  lemma StepKeeps(s: State, h: Happening)
    requires Inv(s) && Enabled(s, h)
    ensures Inv(Step(s, h))
  {
    match h
    case Connected(a, flags) => ConnectKeepsIff(s, a, flags);
    case Disconnected(a, flags) => DisconnectKeeps(s, a, flags);
    case Joined(r) => assert s.feed[..0] == [];
    case Left(r) =>
    case Sent(r) => SendKeeps(s, r);
  }

  ghost predicate Reaches(s: State, hs: seq<Happening>, t: State)
    decreases hs
  {
    if hs == [] then s == t else Enabled(s, hs[0]) && Reaches(Step(s, hs[0]), hs[1..], t)
  }

  lemma {:induction false} RunKeeps(s: State, hs: seq<Happening>, t: State)
    requires Inv(s) && Reaches(s, hs, t)
    ensures Inv(t)
    decreases hs
  {
    if hs == [] {
    } else {
      StepKeeps(s, hs[0]);
      RunKeeps(Step(s, hs[0]), hs[1..], t);
    }
  }

  /**
   * However connections, disconnections and messages interleave, every reader holds exactly the
   * addresses that were live at the last event it was told about.
   */
  lemma RunFromFresh(hs: seq<Happening>, t: State, r: nat)
    requires Reaches(FRESH, hs, t) && r in t.readers
    ensures t.readers[r].pos <= |t.feed| && t.readers[r].held == Live(t.feed[..t.readers[r].pos])
    ensures Live(t.feed + t.hold) == Compact(t.conns)
  {
    assert FRESH.feed + FRESH.hold == [];
    RunKeeps(FRESH, hs, t);
    assert ReaderOk(t, t.readers[r]);
  }
}
