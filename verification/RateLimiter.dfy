// The request limiter (internal/gql/ratelimit.go): the sections of code that run
// under its lock, as methods on its fields and as functions on a snapshot of them.
//
// A waiter's channel has capacity 1, so it is a number together with the fact
// whether a token lies in it.
module RateLimiting {
  import opened Common

  // The limiter's fields. `signalled` holds the channels with a token in them,
  // `nextChan` the next channel number, `timer` the earliest instant at which the
  // armed window timer can fire.
  datatype Limiter = Limiter(
    capacity: int, window: nat, total: int, concurrent: int, waiters: seq<nat>,
    signalled: set<nat>, nextChan: nat, timer: Option<int>, closed: bool)

  datatype Attempt = Closed | Cancelled | Granted | Parked(ch: nat)

  function NewLimiter(capacity: int, window: nat): Limiter {
    Limiter(capacity, window, 0, 0, [], {}, 0, None, false)
  }

  // One pass of the loop in Acquire, from taking the lock to giving it back.
  function TryAcquire(l: Limiter, now: int, ctxDone: bool): (Limiter, Attempt) {
    if l.closed then (l, Closed)
    else if ctxDone then (l, Cancelled)
    else if Max(l.total, l.concurrent) < l.capacity then
      (l.(total := l.total + 1, concurrent := l.concurrent + 1,
          timer := if l.timer.None? then Some(now + l.window) else l.timer), Granted)
    else
      (l.(waiters := l.waiters + [l.nextChan], nextChan := l.nextChan + 1), Parked(l.nextChan))
  }

  // Every waiter gets a token unless it has one, and the list is emptied.
  function Notify(l: Limiter): Limiter {
    l.(waiters := [], signalled := l.signalled + set w | w in l.waiters)
  }

  function Release(l: Limiter): Limiter {
    Notify(l.(concurrent := if l.concurrent > 0 then l.concurrent - 1 else l.concurrent))
  }

  function WindowReset(l: Limiter): Limiter {
    Notify(l.(total := 0, timer := None))
  }

  function Close(l: Limiter): Limiter {
    Notify(l.(closed := true, timer := None))
  }

  // The first occurrence of ch, if any, taken out of the list.
  function Without(ws: seq<nat>, ch: nat): (r: seq<nat>)
    ensures ch !in ws ==> r == ws
    ensures forall w :: w in r ==> w in ws
    ensures forall w :: w in ws && w != ch ==> w in r
  {
    if ws == [] then []
    else if ws[0] == ch then ws[1..]
    else [ws[0]] + Without(ws[1..], ch)
  }

  // Where k is the first place of ch, exactly that place is taken out.
  lemma {:induction false} WithoutAt(ws: seq<nat>, k: nat, ch: nat)
    requires k < |ws| && ws[k] == ch && ch !in ws[..k]
    ensures Without(ws, ch) == ws[..k] + ws[k + 1..]
  {
    if k > 0 {
      assert ws[0] in ws[..k];
      assert ws[1..][..k - 1] == ws[..k][1..];
      WithoutAt(ws[1..], k - 1, ch);
      assert ws[1..][k..] == ws[k + 1..];
    }
  }

  function RemoveWaiter(l: Limiter, ch: nat): Limiter {
    l.(waiters := Without(l.waiters, ch))
  }

  class RateLimiter {
    const capacity: int
    const window: nat
    var total: int
    var concurrent: int
    var waiters: seq<nat>
    var signalled: set<nat>
    var nextChan: nat
    var resetTimer: Option<int>
    var closed: bool

    ghost function View(): Limiter
      reads this
    {
      Limiter(capacity, window, total, concurrent, waiters, signalled, nextChan, resetTimer, closed)
    }

    constructor (capacity: int, window: nat)
      ensures View() == NewLimiter(capacity, window)
    {
      this.capacity := capacity;
      this.window := window;
      total, concurrent, waiters, signalled, nextChan := 0, 0, [], {}, 0;
      resetTimer, closed := None, false;
    }

    method AcquirePass(now: int, ctxDone: bool) returns (r: Attempt)
      modifies this
      ensures (View(), r) == TryAcquire(old(View()), now, ctxDone)
      ensures r == Closed <==> old(closed)
      ensures r == Cancelled <==> !old(closed) && ctxDone
      ensures r == Granted <==> !old(closed) && !ctxDone && old(total) < capacity && old(concurrent) < capacity
      ensures r == Closed || r == Cancelled ==> View() == old(View())
      ensures r == Granted ==>
                && total == old(total) + 1 && concurrent == old(concurrent) + 1 && waiters == old(waiters)
                && resetTimer == (if old(resetTimer).None? then Some(now + window) else old(resetTimer))
      ensures r.Parked? ==>
                && r.ch == old(nextChan) && waiters == old(waiters) + [r.ch] && nextChan == r.ch + 1
                && total == old(total) && concurrent == old(concurrent) && resetTimer == old(resetTimer)
      ensures signalled == old(signalled) && closed == old(closed)
    {
      if closed {
        return Closed;
      }
      if ctxDone {
        return Cancelled;
      }
      if Max(total, concurrent) < capacity {
        total := total + 1;
        concurrent := concurrent + 1;
        if resetTimer.None? {
          resetTimer := Some(now + window);
        }
        return Granted;
      }
      var waiter := nextChan;
      nextChan := nextChan + 1;
      waiters := waiters + [waiter];
      return Parked(waiter);
    }

    method ReleaseSlot()
      modifies this
      ensures View() == Release(old(View()))
      ensures concurrent == (if old(concurrent) > 0 then old(concurrent) - 1 else old(concurrent))
      ensures total == old(total) && resetTimer == old(resetTimer) && closed == old(closed)
      ensures waiters == [] && forall w :: w in signalled <==> w in old(signalled) || w in old(waiters)
    {
      if concurrent > 0 {
        concurrent := concurrent - 1;
      }
      NotifyAll();
    }

    method OnWindowReset()
      modifies this
      ensures View() == WindowReset(old(View()))
      ensures total == 0 && resetTimer == None && concurrent == old(concurrent) && closed == old(closed)
      ensures waiters == [] && forall w :: w in signalled <==> w in old(signalled) || w in old(waiters)
    {
      total := 0;
      resetTimer := None;
      NotifyAll();
    }

    // A send to a full channel falls through to the default branch.
    method NotifyAll()
      modifies this
      ensures View() == Notify(old(View()))
      ensures total == old(total) && concurrent == old(concurrent) && resetTimer == old(resetTimer) && closed == old(closed)
      ensures waiters == [] && forall w :: w in signalled <==> w in old(signalled) || w in old(waiters)
    {
      for k := 0 to |waiters|
        invariant View() == old(View()).(signalled := signalled)
        invariant signalled == old(signalled) + set w | w in waiters[..k]
      {
        if waiters[k] !in signalled {
          signalled := signalled + {waiters[k]};
        }
      }
      assert waiters[..|waiters|] == waiters;
      waiters := [];
    }

    method Remove(ch: nat)
      modifies this
      ensures View() == RemoveWaiter(old(View()), ch)
      ensures ch !in old(waiters) ==> View() == old(View())
      ensures total == old(total) && concurrent == old(concurrent) && resetTimer == old(resetTimer)
    {
      for k := 0 to |waiters|
        invariant View() == old(View())
        invariant ch !in waiters[..k]
      {
        if waiters[k] == ch {
          WithoutAt(waiters, k, ch);
          waiters := waiters[..k] + waiters[k + 1..];
          return;
        }
      }
      assert waiters[..|waiters|] == waiters;
    }

    method CloseLimiter()
      modifies this
      ensures View() == Close(old(View()))
      ensures closed && resetTimer == None && total == old(total) && concurrent == old(concurrent)
      ensures waiters == [] && forall w :: w in signalled <==> w in old(signalled) || w in old(waiters)
    {
      closed := true;
      if resetTimer.Some? {
        resetTimer := None;
      }
      NotifyAll();
    }

    method Status() returns (concurrent: int, total: int, capacity: int)
      ensures concurrent == this.concurrent && total == this.total && capacity == this.capacity
    {
      return this.concurrent, this.total, this.capacity;
    }
  }
}
