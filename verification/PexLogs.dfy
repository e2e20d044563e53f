/** The peer-exchange log as a linked list that grows at its tail, tied to Pex and PexRuns. */
module PexLogs {
  import opened Common
  import opened Pex
  import PexRuns

  /** As many flags as addresses. */
  predicate Aligned(f: Factory) {
    |f.msg.addedFlags| == |f.msg.added| && |f.msg.added6Flags| == |f.msg.added6|
  }

  class MsgFactory {
    var msg: Msg
    var added: set<Addr>
    var dropped: set<Addr>

    constructor ()
      ensures View() == EMPTY
    {
      msg, added, dropped := Msg([], [], [], [], [], []), {}, {};
    }

    function View(): Factory
      reads this
    {
      Factory(msg, added, dropped)
    }

    method Add(e: Event)
      modifies this
      ensures View() == Pex.Add(old(View()), e)
    {
      var a := e.addr;
      if a in added || a.kind == Other {
        return;
      }
      if a in dropped {
        if a.kind == V4 {
          var i := Find(msg.dropped, a);
          if i < |msg.dropped| {
            msg := msg.(dropped := msg.dropped[..i] + msg.dropped[i + 1..]);
          }
        } else {
          var i := Find(msg.dropped6, a);
          if i < |msg.dropped6| {
            msg := msg.(dropped6 := msg.dropped6[..i] + msg.dropped6[i + 1..]);
          }
        }
        dropped := dropped - {a};
        return;
      }
      if a.kind == V4 {
        msg := msg.(added := msg.added + [a], addedFlags := msg.addedFlags + [e.flags]);
      } else {
        msg := msg.(added6 := msg.added6 + [a], added6Flags := msg.added6Flags + [e.flags]);
      }
      added := added + {a};
    }

    method Drop(e: Event)
      requires Aligned(View())
      modifies this
      ensures View() == Pex.Drop(old(View()), e)
    {
      var a := e.addr;
      if a.kind == Other || a in dropped {
        return;
      }
      if a in added {
        if a.kind == V4 {
          var i := Find(msg.added, a);
          if i < |msg.added| {
            msg := msg.(added := msg.added[..i] + msg.added[i + 1..],
                        addedFlags := msg.addedFlags[..i] + msg.addedFlags[i + 1..]);
          }
        } else {
          var i := Find(msg.added6, a);
          if i < |msg.added6| {
            msg := msg.(added6 := msg.added6[..i] + msg.added6[i + 1..],
                        added6Flags := msg.added6Flags[..i] + msg.added6Flags[i + 1..]);
          }
        }
        added := added - {a};
        return;
      }
      if a.kind == V4 {
        msg := msg.(dropped := msg.dropped + [a]);
      } else {
        msg := msg.(dropped6 := msg.dropped6 + [a]);
      }
      dropped := dropped + {a};
    }

    method Append(e: Event)
      requires Aligned(View())
      modifies this
      ensures View() == Pex.Append(old(View()), e) && Aligned(View())
    {
      if e.drop {
        Drop(e);
      } else {
        Add(e);
      }
    }
  }

  /** The first index of an address, or the length. */
  method Find(s: seq<Addr>, a: Addr) returns (i: nat)
    ensures i == IndexOf(s, a)
  {
    i := 0;
    while i < |s| && s[i] != a
      invariant 0 <= i <= |s| && IndexOf(s, a) == i + IndexOf(s[i..], a)
    {
      i := i + 1;
    }
  }

  class Node {
    const event: Event
    var next: Node?

    constructor (event: Event)
      ensures this.event == event && next == null
    {
      this.event, next := event, null;
    }
  }

  ghost function NextOf(nodes: seq<Node>, i: nat): Node? {
    if i + 1 < |nodes| then nodes[i + 1] else null
  }

  ghost predicate Linked(nodes: seq<Node>)
    reads nodes
  {
    && (forall i, j | 0 <= i < j < |nodes| :: nodes[i] != nodes[j])
    && (forall i | 0 <= i < |nodes| :: nodes[i].next == NextOf(nodes, i))
  }

  ghost function Events(nodes: seq<Node>): seq<Event> {
    seq(|nodes|, i requires 0 <= i < |nodes| => nodes[i].event)
  }

  class PexLog {
    var tail: Node?
    var hold: seq<Event>
    var nc: int
    const msg0: MsgFactory
    ghost var nodes: seq<Node>
    ghost var conns: set<Addr>

    ghost predicate Valid()
      reads this, nodes, msg0
    {
      && Linked(nodes)
      && tail == (if nodes == [] then null else nodes[|nodes| - 1])
      && Aligned(msg0.View())
    }

    ghost function View(): PexRuns.State
      reads this, msg0
    {
      PexRuns.State(Events(nodes), hold, nc, msg0.View(), conns, map[])
    }

    constructor ()
      ensures Valid() && View() == PexRuns.FRESH && fresh(msg0)
    {
      tail, hold, nc := null, [], 0;
      msg0 := new MsgFactory();
      nodes, conns := [], {};
    }

    /** Put an event at the end of the log and into the first message. */
    method Append(e: Event)
      requires Valid()
      modifies this`tail, this`nodes, tail, msg0
      ensures Valid() && tail != null && fresh(tail)
      ensures View() == PexRuns.Log(old(View()), [e])
    {
      ghost var was := View();
      var n := new Node(e);
      if tail != null {
        tail.next := n;
      }
      tail := n;
      msg0.Append(e);
      nodes := nodes + [n];
      assert Events(nodes) == was.feed + [e];
      assert PexRuns.Log(was, [e]) == was.(feed := was.feed + [e], msg0 := Pex.Append(was.msg0, e)) by {
        assert [e][..0] == [];
      }
    }

    /** Log some events one after the other. */
    method AppendEach(held: seq<Event>)
      requires Valid()
      modifies this`tail, this`nodes, tail, msg0
      ensures Valid() && (tail == old(tail) || fresh(tail))
      ensures View() == PexRuns.Log(old(View()), held)
    {
      ghost var was := View();
      var i := 0;
      assert held[..0] == [];
      while i < |held|
        invariant 0 <= i <= |held| && Valid() && (tail == old(tail) || fresh(tail))
        invariant View() == PexRuns.Log(was, held[..i])
      {
        LogMore(was, held, i);
        Append(held[i]);
        i := i + 1;
      }
      assert held[..|held|] == held;
    }

    /** Log the drops that were held back. */
    method Flush()
      requires Valid()
      modifies this`tail, this`nodes, this`hold, tail, msg0
      ensures Valid() && (tail == old(tail) || fresh(tail))
      ensures View() == PexRuns.Log(old(View()), old(hold)).(hold := [])
    {
      AppendEach(hold);
      hold := [];
    }

    /** A connection is listed; when there are enough of them, drops held back are logged first. */
    method Add(a: Addr, flags: nat)
      requires Valid()
      modifies this, tail, msg0
      ensures Valid() && View() == PexRuns.Connect(old(View()), a, flags)
    {
      nc := nc + 1;
      conns := conns + {a};
      if nc >= TARG_ADDED {
        Flush();
      }
      Append(Event(false, a, flags));
    }

    /** A listed connection ends; while there are few of them, and room, this is held back. */
    method Drop(a: Addr, flags: nat)
      requires Valid()
      modifies this, tail, msg0
      ensures Valid() && View() == PexRuns.Disconnect(old(View()), a, flags)
    {
      var e := Event(true, a, flags);
      nc := nc - 1;
      conns := conns - {a};
      if nc < TARG_ADDED && |hold| < MAX_HOLD {
        hold := hold + [e];
      } else {
        Append(e);
      }
    }

    /** The node that a reader at a position points to. */
    ghost predicate At(n: Node?, pos: nat)
      reads this
    {
      pos <= |nodes| && n == if pos == 0 then null else nodes[pos - 1]
    }

    /** The next message for a reader, and where it ends. */
    method Genmsg(start: Node?, ghost pos: nat) returns (m: Msg, last: Node?)
      requires Valid() && At(start, pos)
      ensures m == Pex.Genmsg(View().feed, msg0.View(), pos).0
      ensures At(last, Pex.Genmsg(View().feed, msg0.View(), pos).1)
    {
      if start == null {
        return msg0.msg, tail;
      }
      var f;
      f, last := CutNodes(nodes, start, pos, Cut(Events(nodes), EMPTY, pos));
      m := f.msg;
    }
  }

  /** Follow the list from a node until the message is full. */
  method CutNodes(ghost nodes: seq<Node>, start: Node, ghost pos: nat, ghost goal: (Factory, nat))
    returns (f: MsgFactory, last: Node)
    requires Linked(nodes) && 0 < pos <= |nodes| && start == nodes[pos - 1]
    requires goal == Cut(Events(nodes), EMPTY, pos)
    ensures f.View() == goal.0 && last == nodes[goal.1 - 1]
  {
    ghost var feed := Events(nodes);
    f := new MsgFactory();
    last := start;
    ghost var end := pos;
    var e := start.next;
    while e != null
      invariant 0 < end <= |nodes| && last == nodes[end - 1] && e == NextOf(nodes, end - 1)
      invariant fresh(f) && Aligned(f.View())
      invariant Cut(feed, f.View(), end) == goal
      decreases |nodes| - end
    {
      if Max(|f.added|, |f.dropped|) >= MAX_DELTA {
        break;
      }
      assert e == nodes[end] && feed[end] == e.event;
      CutMore(feed, f.View(), end);
      f.Append(e.event);
      last, end := e, end + 1;
      e := e.next;
    }
    CutStops(feed, f.View(), end);
    assert goal == (f.View(), end);
  }

  lemma CutStops(feed: seq<Event>, f: Factory, at: nat)
    requires at == |feed| || (at < |feed| && f.DeltaLen() >= MAX_DELTA)
    ensures Cut(feed, f, at) == (f, at)
  {
  }

  lemma CutMore(feed: seq<Event>, f: Factory, at: nat)
    requires at < |feed| && f.DeltaLen() < MAX_DELTA
    ensures Cut(feed, f, at) == Cut(feed, Pex.Append(f, feed[at]), at + 1)
  {
  }

  lemma LogMore(s: PexRuns.State, es: seq<Event>, i: nat)
    requires i < |es|
    ensures PexRuns.Log(s, es[..i + 1]) == PexRuns.Log(PexRuns.Log(s, es[..i]), [es[i]])
  {
    assert es[..i + 1][..i] == es[..i] && [es[i]][..0] == [];
  }

  /** One connection's place in the log. */
  class PexConn {
    const log: PexLog
    var last: Node?
    ghost var reader: PexRuns.Reader   // the place as a number, and what the receiver holds

    constructor (log: PexLog)
      ensures this.log == log && last == null && reader == PexRuns.Reader(0, {})
    {
      this.log, last, reader := log, null, PexRuns.Reader(0, {});
    }

    /** The next message, if there is anything to tell; only then does the place move on. */
    method Genmsg() returns (m: Option<Msg>)
      requires log.Valid() && log.At(last, reader.pos)
      modifies this
      ensures log.At(last, reader.pos)
      ensures old(reader.pos) <= |log.View().feed|
      ensures reader == PexRuns.Told(log.View().feed, log.View().msg0, old(reader))
      ensures m.Some? ==> reader.held == Apply(old(reader.held), m.value)
      ensures m.None? ==> reader == old(reader)
    {
      var tx, next := log.Genmsg(last, reader.pos);
      if tx.Len() == 0 {
        return None;
      }
      ghost var end := Pex.Genmsg(log.View().feed, log.View().msg0, reader.pos).1;
      last, reader := next, PexRuns.Reader(end, Apply(reader.held, tx));
      return Some(tx);
    }
  }
}
