/** The allocation limiter and its reservations as objects, tied to AllocLimiter. */
module Limiters {
  import opened Common
  import opened AllocLimiter

  class Reservation {
    const n: nat
    var granted: bool
    var cancelled: bool
    var released: bool

    constructor (n: nat)
      ensures this.n == n && !granted && !cancelled && !released
    {
      this.n := n;
      granted, cancelled, released := false, false, false;
    }

    function View(): Res
      reads this
    {
      Res(n, granted, cancelled, released)
    }

    /** True if this call granted the reservation. */
    method Wake() returns (ok: bool)
      modifies this`granted
      ensures ok <==> !cancelled && !old(granted)
      ensures granted == (old(granted) || ok)
    {
      if cancelled {
        return false;
      }
      ok := !granted;
      granted := true;
    }
  }

  class Limiter {
    const max: nat
    var value: int
    var waiting: seq<Reservation>
    ghost var all: set<Reservation>
    ghost var releasing: set<Reservation>
    ghost var wakes: nat
    ghost var waker: Waker<Reservation>

    ghost function View(): State<Reservation>
      reads this, all
    {
      State(max, value, waiting, map r | r in all :: r.View(), releasing, wakes, waker)
    }

    constructor (max: nat)
      ensures View() == Fresh(max) && Inv(View())
    {
      this.max, value, waiting := max, max, [];
      all, releasing, wakes, waker := {}, {}, 0, Nobody;
      new;
      FreshInv<Reservation>(max);
    }

    method Reserve(n: nat) returns (r: Reservation)
      requires waker.Nobody?
      modifies this
      ensures fresh(r) && all == old(all) + {r}
      ensures View() == AllocLimiter.Reserve(old(View()), r, n)
    {
      ghost var was := View();
      r := new Reservation(n);
      if n <= value {
        value := value - n;
        r.granted := true;
      } else {
        waiting := waiting + [r];
      }
      all := all + {r};
      assert View().res == AllocLimiter.Reserve(was, r, n).res;
    }

    /** Hand out space from the head of the queue until it is empty or its head must wait. */
    method DoWakesLocked()
      requires Queued(View()) && waker.Looking?
      modifies this, all
      ensures all == old(all) && View() == Drain(old(View()))
    {
      ghost var end := Drain(View());
      while true
        invariant all == old(all) && Queued(View()) && waker.Looking?
        invariant Drain(View()) == end
        decreases |waiting|
      {
        ghost var was := View();
        if |waiting| == 0 {
          waker := Nobody;
          assert View().res == was.res;
          break;
        }
        var r := waiting[0];
        assert r in was.res;
        if r.cancelled {
          waiting := waiting[1..];
          assert View().res == was.res;
        } else if r.n <= value {
          Grant(r);
        } else {
          waker := Nobody;
          assert View().res == was.res;
          break;
        }
      }
    }

    /** Grant the head of the queue and drop it. */
    method Grant(r: Reservation)
      requires Queued(View()) && waker.Looking? && waiting != [] && r == waiting[0] && !r.cancelled && r.n <= value
      modifies this, r
      ensures all == old(all) && View() == Wake(Look(old(View())))
    {
      ghost var was := View();
      assert r in was.res && was.res[r] == r.View();
      assert Look(was) == was.(waker := Trying(was.waker.owner, r));
      var ok := r.Wake();
      if ok {
        value := value - r.n;
      }
      waiting := waiting[1..];
      assert View().res == Wake(Look(was)).res;
    }

    /** Return space; the caller holds the mutex of its reservation. */
    method AddValue(ghost r: Reservation, n: nat)
      requires Queued(View()) && waker.Nobody? && r in releasing && r in all && n == r.n
      modifies this, all
      ensures all == old(all) && View() == Drain(AllocLimiter.AddValue(old(View()), r))
    {
      ghost var was := View();
      value := value + n;
      releasing, waker := releasing - {r}, Looking(Some(r));
      assert View().res == was.res;
      DoWakesLocked();
    }

    /** The whole of a release that nobody comes between. */
    method Release(r: Reservation)
      requires Queued(View()) && waker.Nobody? && r in all && (r.granted || r.cancelled)
      modifies this, all
      ensures all == old(all)
      ensures var was := old(View());
              View() == if was.res[r].cancelled || was.res[r].released then was
                        else Drain(AllocLimiter.AddValue(ReleaseOnce(was, r), r))
    {
      if !r.cancelled {
        ReleaseGranted(r);
      }
    }

    /** The once-only part that a release and a drop share. */
    method ReleaseGranted(r: Reservation)
      requires Queued(View()) && waker.Nobody? && r in all
      modifies this, all
      ensures all == old(all)
      ensures var was := old(View());
              View() == if was.res[r].released then was
                        else Drain(AllocLimiter.AddValue(ReleaseOnce(was, r), r))
    {
      ghost var was := View();
      if !r.released {
        r.released := true;
        releasing := releasing + {r};
        assert View().res == ReleaseOnce(was, r).res;
        AddValue(r, r.n);
      }
    }

    method Cancel(r: Reservation) returns (ok: bool)
      requires r in all
      modifies this, r
      ensures all == old(all) && (View(), ok) == AllocLimiter.Cancel(old(View()), r)
    {
      if r.granted {
        return false;
      }
      ghost var was := View();
      if !r.cancelled {
        r.cancelled := true;
        wakes := wakes + 1;
        assert View().res == CancelOnce(was, r).res;
      }
      return true;
    }

    method Drop(r: Reservation)
      requires Queued(View()) && waker.Nobody? && r in all
      modifies this, all
      ensures all == old(all)
      ensures var was := old(View());
              View() == if !was.res[r].granted then CancelOnce(was, r)
                        else if was.res[r].released then was
                        else Drain(AllocLimiter.AddValue(ReleaseOnce(was, r), r))
    {
      if r.granted {
        ReleaseGranted(r);
      } else {
        var ok := Cancel(r);
      }
    }
  }
}
