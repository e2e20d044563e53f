/**
 * Peer exchange: a log of connections and disconnections, from which messages for readers at
 * different positions are cut.  Addresses that have no compact form are of kind `Other`.
 */
module Pex {
  import opened Common

  const TARG_ADDED: nat := 25
  const MAX_HOLD: nat := 25
  const MAX_DELTA: nat := 50

  datatype Kind = V4 | V6 | Other
  datatype Addr = Addr(kind: Kind, id: nat)
  datatype Event = Event(drop: bool, addr: Addr, flags: nat)

  datatype Msg = Msg(
    added: seq<Addr>, addedFlags: seq<nat>,
    added6: seq<Addr>, added6Flags: seq<nat>,
    dropped: seq<Addr>, dropped6: seq<Addr>)
  {
    function Len(): nat {
      |added| + |added6| + |dropped| + |dropped6|
    }
  }

  datatype Factory = Factory(msg: Msg, added: set<Addr>, dropped: set<Addr>) {
    function DeltaLen(): nat {
      Max(|added|, |dropped|)
    }
  }

  const EMPTY := Factory(Msg([], [], [], [], [], []), {}, {})

  // ---------------------------------------------------------- message building

  function IndexOf(s: seq<Addr>, a: Addr): (i: nat)
    ensures i <= |s| && (i < |s| ==> s[i] == a)
    ensures a in s <==> i < |s|
    ensures a !in s[..i]
  {
    if s == [] || s[0] == a then 0 else 1 + IndexOf(s[1..], a)
  }

  /** The list without the element at `i`; with `i` past the end, the list. */
  function RemoveAt<T>(s: seq<T>, i: nat): seq<T> {
    if i < |s| then s[..i] + s[i + 1..] else s
  }

  function Add(f: Factory, e: Event): Factory {
    var a, m := e.addr, f.msg;
    if a in f.added || a.kind == Other then f
    else if a in f.dropped then
      var m1 := if a.kind == V4 then m.(dropped := RemoveAt(m.dropped, IndexOf(m.dropped, a)))
                else m.(dropped6 := RemoveAt(m.dropped6, IndexOf(m.dropped6, a)));
      Factory(m1, f.added, f.dropped - {a})
    else
      var m1 := if a.kind == V4 then m.(added := m.added + [a], addedFlags := m.addedFlags + [e.flags])
                else m.(added6 := m.added6 + [a], added6Flags := m.added6Flags + [e.flags]);
      Factory(m1, f.added + {a}, f.dropped)
  }

  function Drop(f: Factory, e: Event): Factory {
    var a, m := e.addr, f.msg;
    if a.kind == Other || a in f.dropped then f
    else if a in f.added then
      var m1 := if a.kind == V4 then
                  var i := IndexOf(m.added, a);
                  m.(added := RemoveAt(m.added, i), addedFlags := RemoveAt(m.addedFlags, i))
                else
                  var i := IndexOf(m.added6, a);
                  m.(added6 := RemoveAt(m.added6, i), added6Flags := RemoveAt(m.added6Flags, i));
      Factory(m1, f.added - {a}, f.dropped)
    else
      var m1 := if a.kind == V4 then m.(dropped := m.dropped + [a]) else m.(dropped6 := m.dropped6 + [a]);
      Factory(m1, f.added, f.dropped + {a})
  }

  function Append(f: Factory, e: Event): Factory {
    if e.drop then Drop(f, e) else Add(f, e)
  }

  function AppendAll(f: Factory, es: seq<Event>): Factory {
    if es == [] then f else Append(AppendAll(f, es[..|es| - 1]), es[|es| - 1])
  }

  /** A message for a reader that has taken in the first `start` events; 0 asks for the first message. */
  function Genmsg(feed: seq<Event>, msg0: Factory, start: nat): (Msg, nat)
    requires start <= |feed|
  {
    if start == 0 then (msg0.msg, |feed|)
    else
      var (f, last) := Cut(feed, EMPTY, start);
      (f.msg, last)
  }

  /** Take in events until the message is full. */
  function Cut(feed: seq<Event>, f: Factory, at: nat): (r: (Factory, nat))
    requires at <= |feed|
    ensures at <= r.1 <= |feed|
    decreases |feed| - at
  {
    if at == |feed| || f.DeltaLen() >= MAX_DELTA then (f, at)
    else Cut(feed, Append(f, feed[at]), at + 1)
  }

  // ------------------------------------------------- lists agree with the keys

  ghost predicate NoDup<T>(s: seq<T>) {
    forall i, j | 0 <= i < j < |s| :: s[i] != s[j]
  }

  /** The list holds each key of a kind once. */
  ghost predicate Lists(s: seq<Addr>, kind: Kind, keys: set<Addr>) {
    NoDup(s) && forall a :: a in s <==> a in keys && a.kind == kind
  }

  ghost predicate FactoryOk(f: Factory) {
    && Lists(f.msg.added, V4, f.added) && Lists(f.msg.added6, V6, f.added)
    && Lists(f.msg.dropped, V4, f.dropped) && Lists(f.msg.dropped6, V6, f.dropped)
    && |f.msg.addedFlags| == |f.msg.added| && |f.msg.added6Flags| == |f.msg.added6|
    && (forall a | a in f.added + f.dropped :: a.kind != Other)
    && f.added !! f.dropped
  }

  lemma ListsAppend(s: seq<Addr>, kind: Kind, keys: set<Addr>, a: Addr)
    requires Lists(s, kind, keys) && a !in keys
    ensures a.kind == kind ==> Lists(s + [a], kind, keys + {a})
    ensures a.kind != kind ==> Lists(s, kind, keys + {a})
  {
  }

  lemma RemovedMember(s: seq<Addr>, i: nat, b: Addr)
    requires NoDup(s) && i < |s|
    ensures b in RemoveAt(s, i) <==> b in s && b != s[i]
  {
    var r := RemoveAt(s, i);
    if b in s && b != s[i] {
      var j :| 0 <= j < |s| && s[j] == b;
      assert r[if j < i then j else j - 1] == b;
    }
  }

  lemma RemovedNoDup(s: seq<Addr>, i: nat)
    requires NoDup(s) && i < |s|
    ensures NoDup(RemoveAt(s, i))
  {
  }

  lemma ListsRemove(s: seq<Addr>, kind: Kind, keys: set<Addr>, a: Addr)
    requires Lists(s, kind, keys) && a in keys
    ensures a.kind == kind ==> Lists(RemoveAt(s, IndexOf(s, a)), kind, keys - {a})
    ensures a.kind != kind ==> Lists(s, kind, keys - {a})
  {
    if a.kind == kind {
      var i := IndexOf(s, a);
      assert s[i] == a;
      RemovedNoDup(s, i);
      forall b
        ensures b in RemoveAt(s, i) <==> b in keys - {a} && b.kind == kind
      {
        RemovedMember(s, i, b);
      }
    }
  }

  lemma AppendKeeps(f: Factory, e: Event)
    requires FactoryOk(f)
    ensures FactoryOk(Append(f, e))
  {
    var a, m := e.addr, f.msg;
    if a.kind != Other {
      if a in f.added {
        ListsRemove(m.added, V4, f.added, a);
        ListsRemove(m.added6, V6, f.added, a);
      } else if a in f.dropped {
        ListsRemove(m.dropped, V4, f.dropped, a);
        ListsRemove(m.dropped6, V6, f.dropped, a);
      } else {
        ListsAppend(m.added, V4, f.added, a);
        ListsAppend(m.added6, V6, f.added, a);
        ListsAppend(m.dropped, V4, f.dropped, a);
        ListsAppend(m.dropped6, V6, f.dropped, a);
      }
    }
  }

  // ---------------------------------------------------------- what a log means

  /** The compact addresses that are connected after some events. */
  ghost function Live(es: seq<Event>): set<Addr> {
    if es == [] then {} else After(Live(es[..|es| - 1]), es[|es| - 1])
  }

  function After(live: set<Addr>, e: Event): set<Addr> {
    if e.addr.kind == Other then live else if e.drop then live - {e.addr} else live + {e.addr}
  }

  /** An event fits when it adds what is not live or drops what is. */
  predicate Fits(live: set<Addr>, e: Event) {
    e.addr.kind == Other || (e.drop <==> e.addr in live)
  }

  /** Every address is added and dropped in turn, starting with added. */
  ghost predicate Alternates(es: seq<Event>) {
    es == [] || (Alternates(es[..|es| - 1]) && Fits(Live(es[..|es| - 1]), es[|es| - 1]))
  }

  lemma LiveOne(es: seq<Event>, e: Event)
    ensures Live(es + [e]) == After(Live(es), e)
    ensures Alternates(es + [e]) <==> Alternates(es) && Fits(Live(es), e)
  {
    assert (es + [e])[..|es + [e]| - 1] == es;
  }

  lemma {:induction false} AlternatesPrefix(es: seq<Event>, k: nat)
    requires k < |es| && Alternates(es)
    ensures Alternates(es[..k]) && Fits(Live(es[..k]), es[k])
    ensures Live(es[..k + 1]) == After(Live(es[..k]), es[k])
    decreases |es|
  {
    LiveOne(es[..k], es[k]);
    assert es[..k] + [es[k]] == es[..k + 1];
    if k + 1 < |es| {
      AlternatesPrefix(es[..|es| - 1], k);
      assert es[..|es| - 1][..k] == es[..k];
    } else {
      assert es[..|es|] == es;
    }
  }

  /** The message says how to get from one set of addresses to another. */
  ghost predicate Delta(f: Factory, from: set<Addr>, to: set<Addr>) {
    f.added == to - from && f.dropped == from - to
  }

  lemma AppendDelta(f: Factory, e: Event, from: set<Addr>, to: set<Addr>)
    requires Delta(f, from, to) && Fits(to, e)
    ensures Delta(Append(f, e), from, After(to, e))
  {
  }

  lemma {:induction false} AppendAllDelta(feed: seq<Event>)
    requires Alternates(feed)
    ensures FactoryOk(AppendAll(EMPTY, feed)) && Delta(AppendAll(EMPTY, feed), {}, Live(feed))
  {
    if feed == [] {
    } else {
      var es, e := feed[..|feed| - 1], feed[|feed| - 1];
      AppendAllDelta(es);
      AppendKeeps(AppendAll(EMPTY, es), e);
      AppendDelta(AppendAll(EMPTY, es), e, {}, Live(es));
    }
  }

  /** What a receiver makes of a message. */
  function Apply(held: set<Addr>, m: Msg): set<Addr> {
    held - (set a | a in m.dropped + m.dropped6) + (set a | a in m.added + m.added6)
  }

  // ------------------------------------------------------------- message sizes

  /** Both address families of a message together list each key once. */
  lemma CountsAre(f: Factory)
    requires FactoryOk(f)
    ensures |f.msg.added| + |f.msg.added6| == |f.added|
    ensures |f.msg.dropped| + |f.msg.dropped6| == |f.dropped|
  {
    var m := f.msg;
    assert NoDup(m.added + m.added6) && NoDup(m.dropped + m.dropped6);
    ListedCount(m.added + m.added6, f.added);
    ListedCount(m.dropped + m.dropped6, f.dropped);
  }

  lemma ApplyDelta(f: Factory, from: set<Addr>, to: set<Addr>)
    requires FactoryOk(f) && Delta(f, from, to)
    ensures Apply(from, f.msg) == to
    ensures f.msg.Len() == 0 <==> from == to
  {
    var m := f.msg;
    assert (set a | a in m.dropped + m.dropped6) == f.dropped;
    assert (set a | a in m.added + m.added6) == f.added;
    CountsAre(f);
    if f.added == {} && f.dropped == {} {
      assert from == to;
    }
  }

  lemma {:induction false} CutSmall(feed: seq<Event>, f: Factory, at: nat)
    requires at <= |feed| && f.DeltaLen() <= MAX_DELTA
    ensures Cut(feed, f, at).0.DeltaLen() <= MAX_DELTA
    ensures Cut(feed, f, at).1 < |feed| ==> Cut(feed, f, at).0.DeltaLen() == MAX_DELTA
    decreases |feed| - at
  {
    if at == |feed| || f.DeltaLen() >= MAX_DELTA {
    } else {
      CutSmall(feed, Append(f, feed[at]), at + 1);
    }
  }

  // ------------------------------------------------------------- flags

  /** The flags of the last time an address was added. */
  ghost function LastFlags(es: seq<Event>, a: Addr): nat {
    if es == [] then 0
    else
      var e := es[|es| - 1];
      if !e.drop && e.addr == a then e.flags else LastFlags(es[..|es| - 1], a)
  }

  ghost predicate FlagsMatch(addrs: seq<Addr>, flags: seq<nat>, es: seq<Event>) {
    |flags| == |addrs| && forall i | 0 <= i < |addrs| :: flags[i] == LastFlags(es, addrs[i])
  }

  ghost predicate FlagsOk(f: Factory, es: seq<Event>) {
    FlagsMatch(f.msg.added, f.msg.addedFlags, es) && FlagsMatch(f.msg.added6, f.msg.added6Flags, es)
  }

  lemma FlagsOther(addrs: seq<Addr>, flags: seq<nat>, es: seq<Event>, e: Event)
    requires FlagsMatch(addrs, flags, es) && (e.drop || e.addr !in addrs)
    ensures FlagsMatch(addrs, flags, es + [e])
  {
    assert (es + [e])[..|es + [e]| - 1] == es;
  }

  lemma FlagsAppend(addrs: seq<Addr>, flags: seq<nat>, es: seq<Event>, e: Event)
    requires FlagsMatch(addrs, flags, es) && !e.drop && e.addr !in addrs
    ensures FlagsMatch(addrs + [e.addr], flags + [e.flags], es + [e])
  {
    FlagsOther(addrs, flags, es, e);
  }

  lemma FlagsRemove(addrs: seq<Addr>, flags: seq<nat>, es: seq<Event>, i: nat)
    requires FlagsMatch(addrs, flags, es)
    ensures FlagsMatch(RemoveAt(addrs, i), RemoveAt(flags, i), es)
  {
  }

  /** Flags stay next to their addresses: each is the one given when the address was last added. */
  lemma AppendFlags(f: Factory, es: seq<Event>, e: Event, live: set<Addr>)
    requires FactoryOk(f) && FlagsOk(f, es) && f.added <= live && Fits(live, e)
    ensures FlagsOk(Append(f, e), es + [e])
  {
    var a, m := e.addr, f.msg;
    if e.drop {
      FlagsOther(m.added, m.addedFlags, es, e);
      FlagsOther(m.added6, m.added6Flags, es, e);
      FlagsRemove(m.added, m.addedFlags, es + [e], IndexOf(m.added, a));
      FlagsRemove(m.added6, m.added6Flags, es + [e], IndexOf(m.added6, a));
    } else {
      assert a !in m.added && a !in m.added6;
      FlagsOther(m.added, m.addedFlags, es, e);
      FlagsOther(m.added6, m.added6Flags, es, e);
      FlagsAppend(m.added, m.addedFlags, es, e);
      FlagsAppend(m.added6, m.added6Flags, es, e);
    }
  }

  /** A factory that has taken in the events from `start` to `at`. */
  ghost predicate Covers(f: Factory, feed: seq<Event>, start: nat, at: nat)
    requires start <= at <= |feed|
  {
    FactoryOk(f) && Delta(f, Live(feed[..start]), Live(feed[..at])) && FlagsOk(f, feed[..at])
  }

  /** One more event taken in. */
  lemma TakesIn(f: Factory, from: set<Addr>, es: seq<Event>, e: Event, es1: seq<Event>)
    requires FactoryOk(f) && Delta(f, from, Live(es)) && FlagsOk(f, es) && Fits(Live(es), e) && es1 == es + [e]
    ensures FactoryOk(Append(f, e)) && Delta(Append(f, e), from, Live(es1)) && FlagsOk(Append(f, e), es1)
  {
    AppendKeeps(f, e);
    AppendDelta(f, e, from, Live(es));
    AppendFlags(f, es, e, Live(es));
    LiveOne(es, e);
  }

  lemma CoversMore(f: Factory, feed: seq<Event>, start: nat, at: nat)
    requires start <= at < |feed| && Alternates(feed) && Covers(f, feed, start, at)
    ensures Covers(Append(f, feed[at]), feed, start, at + 1)
  {
    AlternatesPrefix(feed, at);
    assert feed[..at + 1] == feed[..at] + [feed[at]];
    TakesIn(f, Live(feed[..start]), feed[..at], feed[at], feed[..at + 1]);
  }

  lemma {:induction false} CutCovers(feed: seq<Event>, f: Factory, start: nat, at: nat)
    requires start <= at <= |feed| && Alternates(feed) && Covers(f, feed, start, at)
    ensures Covers(Cut(feed, f, at).0, feed, start, Cut(feed, f, at).1)
    decreases |feed| - at
  {
    if at == |feed| || f.DeltaLen() >= MAX_DELTA {
    } else {
      CoversMore(f, feed, start, at);
      CutCovers(feed, Append(f, feed[at]), start, at + 1);
    }
  }

  lemma {:induction false} AppendAllFlags(feed: seq<Event>)
    requires Alternates(feed)
    ensures FlagsOk(AppendAll(EMPTY, feed), feed)
  {
    if feed == [] {
    } else {
      var es, e := feed[..|feed| - 1], feed[|feed| - 1];
      AppendAllFlags(es);
      AppendAllDelta(es);
      AppendFlags(AppendAll(EMPTY, es), es, e, Live(es));
      assert es + [e] == feed;
    }
  }

  // ------------------------------------------------------- a message is right

  ghost predicate MsgFlagsOk(m: Msg, es: seq<Event>) {
    FlagsMatch(m.added, m.addedFlags, es) && FlagsMatch(m.added6, m.added6Flags, es)
  }

  ghost predicate Disjoint(m: Msg) {
    forall a | a in m.added + m.added6 :: a !in m.dropped + m.dropped6
  }

  /** What a message cut between two positions of the log has to be. */
  ghost predicate Right(m: Msg, feed: seq<Event>, start: nat, last: nat)
    requires start <= |feed| && last <= |feed|
  {
    && start <= last
    && Apply(Live(feed[..start]), m) == Live(feed[..last])
    && (m.Len() == 0 <==> Live(feed[..start]) == Live(feed[..last]))
    && Disjoint(m) && MsgFlagsOk(m, feed[..last])
  }

  lemma CoversRight(f: Factory, feed: seq<Event>, start: nat, last: nat)
    requires start <= last <= |feed| && Covers(f, feed, start, last)
    ensures Right(f.msg, feed, start, last)
  {
    ApplyDelta(f, Live(feed[..start]), Live(feed[..last]));
  }

  lemma AppendAllCovers(feed: seq<Event>)
    requires Alternates(feed)
    ensures Covers(AppendAll(EMPTY, feed), feed, 0, |feed|)
  {
    assert feed[..0] == [] && feed[..|feed|] == feed;
    AppendAllDelta(feed);
    AppendAllFlags(feed);
  }

  /** A message within the limits on the addresses added and dropped. */
  predicate Small(m: Msg) {
    |m.added| + |m.added6| <= MAX_DELTA && |m.dropped| + |m.dropped6| <= MAX_DELTA
  }

  lemma CutRight(feed: seq<Event>, start: nat, f: Factory, last: nat)
    requires start <= |feed| && Alternates(feed) && (f, last) == Cut(feed, EMPTY, start)
    ensures last <= |feed| && Right(f.msg, feed, start, last) && Small(f.msg)
    ensures f.msg.Len() == 0 ==> last == |feed|
  {
    CutCovers(feed, EMPTY, start, start);
    CoversRight(f, feed, start, last);
    CutSmall(feed, EMPTY, start);
    CountsAre(f);
  }

  /**
   * For every alternating log: a receiver that holds what was live at `start` holds, after applying
   * the message, what was live at the event the message ends with; an empty message means there is
   * nothing to tell up to the end of the log; messages after the first have at most 50 addresses
   * added and at most 50 dropped.
   */
  lemma GenmsgRight(feed: seq<Event>, start: nat)
    requires start <= |feed| && Alternates(feed)
    ensures var (m, last) := Genmsg(feed, AppendAll(EMPTY, feed), start);
            && last <= |feed| && Right(m, feed, start, last)
            && (m.Len() == 0 ==> last == |feed|)
            && (start > 0 ==> Small(m))
  {
    if start == 0 {
      AppendAllCovers(feed);
      CoversRight(AppendAll(EMPTY, feed), feed, 0, |feed|);
    } else {
      var (f, last) := Cut(feed, EMPTY, start);
      CutRight(feed, start, f, last);
    }
  }
}
