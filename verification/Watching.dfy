// The single-channel watcher (internal/channel/watcher.go): Start and Stop hold
// the lock while they wait for the previous beacon loop to end.
module Watching {
  import opened Common

  // A beacon loop: looking for the beacon URL, about to send beacon number n,
  // waiting for the tick that leads to beacon n, or gone (its done channel closed).
  datatype LoopPhase = Discovering | Sending(n: nat) | Waiting(n: nat) | Exited

  datatype LoopState = LoopState(cancelled: bool, phase: LoopPhase)

  // Who holds the watcher's lock: nobody, a Start or Stop waiting for the loop it
  // cancelled, or a Start waiting for its playback token.
  datatype Holder = Nobody | Joining(starting: bool) | FetchingToken

  datatype Beacon = Beacon(loop: nat, number: nat)

  // `loops` holds every loop ever started, `current` the one the cancel and done
  // fields belong to, `beacons` what has been sent.
  datatype World = World(loops: seq<LoopState>, current: Option<nat>, holder: Holder, beacons: seq<Beacon>)

  datatype Event =
    | BeginStart
    | BeginStop
    | Joined
    | Token(ok: bool)
    | Discover(i: nat, ok: bool)
    | Send(i: nat)
    | Tick(i: nat)
    | Leave(i: nat)
    | ParentCancel(i: nat)

  predicate Enabled(w: World, e: Event) {
    && (w.current.Some? ==> w.current.value < |w.loops|)
    && match e
       case BeginStart => w.holder.Nobody?
       case BeginStop => w.holder.Nobody?
       case Joined => w.holder.Joining? && w.current.Some? && w.loops[w.current.value].phase.Exited?
       case Token(_) => w.holder.FetchingToken?
       case Discover(i, _) => i < |w.loops| && w.loops[i].phase.Discovering?
       case Send(i) => i < |w.loops| && w.loops[i].phase.Sending?
       case Tick(i) => i < |w.loops| && w.loops[i].phase.Waiting?
       case Leave(i) => i < |w.loops| && w.loops[i].phase.Waiting? && w.loops[i].cancelled
       case ParentCancel(i) => i < |w.loops|
  }

  function Cancelled(w: World, i: nat): seq<LoopState>
    requires i < |w.loops|
  {
    w.loops[i := w.loops[i].(cancelled := true)]
  }

  function Phased(w: World, i: nat, x: LoopPhase): seq<LoopState>
    requires i < |w.loops|
  {
    w.loops[i := w.loops[i].(phase := x)]
  }

  function Step(w: World, e: Event): World
    requires Enabled(w, e)
  {
    match e
    case BeginStart =>
      if w.current.Some? then w.(loops := Cancelled(w, w.current.value), holder := Joining(true))
      else w.(holder := FetchingToken)
    case BeginStop =>
      if w.current.Some? then w.(loops := Cancelled(w, w.current.value), holder := Joining(false)) else w
    case Joined => w.(current := None, holder := if w.holder.starting then FetchingToken else Nobody)
    case Token(ok) =>
      if ok then
        w.(loops := w.loops + [LoopState(false, Discovering)], current := Some(|w.loops|), holder := Nobody)
      else w.(holder := Nobody)
    case Discover(i, ok) => w.(loops := Phased(w, i, if ok then Sending(1) else Exited))
    case Send(i) =>
      var n := w.loops[i].phase.n;
      w.(loops := Phased(w, i, Waiting(n + 1)), beacons := w.beacons + [Beacon(i, n)])
    case Tick(i) => w.(loops := Phased(w, i, if w.loops[i].cancelled then Exited else Sending(w.loops[i].phase.n)))
    case Leave(i) => w.(loops := Phased(w, i, Exited))
    case ParentCancel(i) => w.(loops := Cancelled(w, i))
  }

  const INIT := World([], None, Nobody, [])

  function Exec(w: World, es: seq<Event>): Option<World> {
    if es == [] then Some(w)
    else
      match Exec(w, es[..|es| - 1])
      case None => None
      case Some(v) => if Enabled(v, es[|es| - 1]) then Some(Step(v, es[|es| - 1])) else None
  }

  // ------------------------------------------------------------------
  // The watcher's fields
  // ------------------------------------------------------------------

  // The fields as the lock sections of Start and Stop and the beacon loops use them.
  class Watcher {
    var loops: seq<LoopState>
    var current: Option<nat>
    var holder: Holder
    var beacons: seq<Beacon>

    ghost function View(): World
      reads this
    {
      World(loops, current, holder, beacons)
    }

    constructor ()
      ensures View() == INIT
    {
      loops, current, holder, beacons := [], None, Nobody, [];
    }

    // Start or Stop takes the lock and cancels the loop it finds.
    method Begin(starting: bool)
      requires Enabled(View(), if starting then BeginStart else BeginStop)
      modifies this
      ensures View() == Step(old(View()), if starting then BeginStart else BeginStop)
    {
      if current.Some? {
        var i := current.value;
        loops := loops[i := loops[i].(cancelled := true)];
        holder := Joining(starting);
      } else if starting {
        holder := FetchingToken;
      }
    }

    // The cancelled loop has closed its done channel.
    method Join()
      requires Enabled(View(), Joined)
      modifies this
      ensures View() == Step(old(View()), Joined)
    {
      current := None;
      if holder.starting {
        holder := FetchingToken;
      } else {
        holder := Nobody;
      }
    }

    // The playback token request returns; without a token nothing is started.
    method FinishStart(tokenOk: bool)
      requires Enabled(View(), Token(tokenOk))
      modifies this
      ensures View() == Step(old(View()), Token(tokenOk))
    {
      if tokenOk {
        current := Some(|loops|);
        loops := loops + [LoopState(false, Discovering)];
      }
      holder := Nobody;
    }

    // A beacon loop sends its next beacon and counts it.
    method SendBeacon(i: nat)
      requires Enabled(View(), Send(i))
      modifies this
      ensures View() == Step(old(View()), Send(i))
    {
      var n := loops[i].phase.n;
      beacons := beacons + [Beacon(i, n)];
      loops := loops[i := loops[i].(phase := Waiting(n + 1))];
    }

    // A tick arrives; the loop looks at its context before sending.
    method OnTick(i: nat)
      requires Enabled(View(), Tick(i))
      modifies this
      ensures View() == Step(old(View()), Tick(i))
    {
      if loops[i].cancelled {
        loops := loops[i := loops[i].(phase := Exited)];
      } else {
        loops := loops[i := loops[i].(phase := Sending(loops[i].phase.n))];
      }
    }
  }

  // ------------------------------------------------------------------
  // One loop at a time
  // ------------------------------------------------------------------

  // Every loop but the current one is gone, and the current one is the latest.
  predicate LoopsOk(w: World) {
    && (w.current.Some? ==> w.current.value + 1 == |w.loops|)
    && (forall i :: 0 <= i < |w.loops| && w.current != Some(i) ==> w.loops[i].phase.Exited?)
    && (w.holder.Joining? ==> w.current.Some?)
    && (w.holder.FetchingToken? ==> w.current.None?)
  }

  // The number of the latest beacon of loop i, 0 if it has sent none yet.
  function Latest(beacons: seq<Beacon>, i: nat): nat {
    if |beacons| > 0 && beacons[|beacons| - 1].loop == i then beacons[|beacons| - 1].number else 0
  }

  // Beacons come grouped by loop, earlier loops first, numbered from 1 without gaps.
  predicate BeaconsOk(beacons: seq<Beacon>) {
    && (forall a, b :: 0 <= a < b < |beacons| ==> beacons[a].loop <= beacons[b].loop)
    && (forall a :: 0 <= a < |beacons| ==> beacons[a].number == Latest(beacons[..a], beacons[a].loop) + 1)
  }

  // What the beacon counters stand for.
  predicate CountersOk(w: World) {
    && (forall a :: 0 <= a < |w.beacons| ==> w.beacons[a].loop < |w.loops|)
    && forall i :: 0 <= i < |w.loops| ==>
         match w.loops[i].phase
         case Discovering => Latest(w.beacons, i) == 0 && (forall a :: 0 <= a < |w.beacons| ==> w.beacons[a].loop < i)
         case Sending(n) => n == Latest(w.beacons, i) + 1
         case Waiting(n) => n == Latest(w.beacons, i) + 1
         case Exited => true
  }

  lemma LoopsStep(w: World, e: Event)
    requires LoopsOk(w) && Enabled(w, e)
    ensures LoopsOk(Step(w, e))
  {
  }

  lemma BeaconAppend(beacons: seq<Beacon>, i: nat, n: nat)
    requires BeaconsOk(beacons) && n == Latest(beacons, i) + 1
    requires forall a :: 0 <= a < |beacons| ==> beacons[a].loop <= i
    ensures BeaconsOk(beacons + [Beacon(i, n)])
  {
    var all := beacons + [Beacon(i, n)];
    assert all[..|beacons|] == beacons;
    assert forall a :: 0 <= a < |beacons| ==> all[..a] == beacons[..a];
  }

  lemma SendStep(w: World, i: nat)
    requires LoopsOk(w) && CountersOk(w) && BeaconsOk(w.beacons) && Enabled(w, Send(i))
    ensures CountersOk(Step(w, Send(i))) && BeaconsOk(Step(w, Send(i)).beacons)
  {
    assert w.current == Some(i) && i == |w.loops| - 1;
    BeaconAppend(w.beacons, i, w.loops[i].phase.n);
    SendCounters(w, i);
  }

  lemma SendCounters(w: World, i: nat)
    requires CountersOk(w) && Enabled(w, Send(i))
    requires i == |w.loops| - 1 && forall k :: 0 <= k < i ==> w.loops[k].phase.Exited?
    ensures CountersOk(Step(w, Send(i)))
  {
    var v := Step(w, Send(i));
    assert forall k :: 0 <= k < i ==> v.loops[k] == w.loops[k];
  }

  // No other step sends anything; a new loop and a changed one keep their counters right.
  lemma QuietStep(w: World, e: Event)
    requires CountersOk(w) && Enabled(w, e) && !e.Send?
    ensures CountersOk(Step(w, e)) && Step(w, e).beacons == w.beacons
  {
    if e.Token? && e.ok {
      assert Latest(w.beacons, |w.loops|) == 0;
    }
  }

  lemma BeaconsStep(w: World, e: Event)
    requires LoopsOk(w) && CountersOk(w) && BeaconsOk(w.beacons) && Enabled(w, e)
    ensures CountersOk(Step(w, e)) && BeaconsOk(Step(w, e).beacons)
  {
    match e
    case Send(i) => SendStep(w, i);
    case _ => QuietStep(w, e);
  }

  lemma {:induction false} WatcherInv(es: seq<Event>, w: World)
    requires Exec(INIT, es) == Some(w)
    ensures LoopsOk(w) && CountersOk(w) && BeaconsOk(w.beacons)
  {
    if es != [] {
      var v := Exec(INIT, es[..|es| - 1]).value;
      WatcherInv(es[..|es| - 1], v);
      LoopsStep(v, es[|es| - 1]);
      BeaconsStep(v, es[|es| - 1]);
    }
  }

  // Over any interleaving of starts, stops, ticks and exits at most one beacon
  // loop is alive, while a Start waits for its token or after it failed to get one
  // none is, and beacons come loop by loop, numbered from 1.
  lemma SingleChannel(es: seq<Event>, w: World)
    requires Exec(INIT, es) == Some(w)
    ensures forall i, j :: 0 <= i < j < |w.loops| ==> w.loops[i].phase.Exited? || w.loops[j].phase.Exited?
    ensures w.current.None? ==> forall i :: 0 <= i < |w.loops| ==> w.loops[i].phase.Exited?
    ensures forall a, b :: 0 <= a < b < |w.beacons| ==> w.beacons[a].loop <= w.beacons[b].loop
    ensures forall a, b :: 0 <= a < b < |w.beacons| && w.beacons[a].loop == w.beacons[b].loop ==>
              w.beacons[b].number == w.beacons[a].number + (b - a)
    ensures forall a :: 0 <= a < |w.beacons| && (a == 0 || w.beacons[a - 1].loop != w.beacons[a].loop) ==>
              w.beacons[a].number == 1
  {
    WatcherInv(es, w);
    forall a, b | 0 <= a < b < |w.beacons| && w.beacons[a].loop == w.beacons[b].loop
      ensures w.beacons[b].number == w.beacons[a].number + (b - a)
    {
      Consecutive(w.beacons, a, b);
    }
  }

  lemma {:induction false} Consecutive(beacons: seq<Beacon>, a: nat, b: nat)
    requires BeaconsOk(beacons) && a < b < |beacons| && beacons[a].loop == beacons[b].loop
    ensures beacons[b].number == beacons[a].number + (b - a)
    decreases b - a
  {
    assert beacons[a].loop <= beacons[b - 1].loop || a == b - 1;
    assert beacons[..b][b - 1] == beacons[b - 1];
    if a < b - 1 {
      Consecutive(beacons, a, b - 1);
    }
  }

  // A Start without a token, and a Stop that has joined, leave no loop running.
  lemma NothingLeftRunning(es: seq<Event>, w: World, e: Event)
    requires Exec(INIT, es) == Some(w) && Enabled(w, e)
    requires e == Token(false) || (e == Joined && !w.holder.starting)
    ensures var v := Step(w, e);
            v.holder.Nobody? && v.current.None? && forall i :: 0 <= i < |v.loops| ==> v.loops[i].phase.Exited?
  {
    WatcherInv(es, w);
  }

  // ------------------------------------------------------------------
  // Ticks and cancellation
  // ------------------------------------------------------------------

  // Only loop i may differ.
  predicate OnlyLoop(w: World, v: World, i: nat) {
    |v.loops| == |w.loops| && forall k :: 0 <= k < |w.loops| && k != i ==> v.loops[k] == w.loops[k]
  }

  // A tick takes a loop that is not cancelled on to its next beacon, with the number it
  // stood at, and ends a cancelled one. It sends nothing itself.
  lemma TickExact(w: World, i: nat)
    requires Enabled(w, Tick(i))
    ensures var v := Step(w, Tick(i));
            && v.beacons == w.beacons && v.current == w.current && v.holder == w.holder && OnlyLoop(w, v, i)
            && v.loops[i].cancelled == w.loops[i].cancelled
            && v.loops[i].phase == (if w.loops[i].cancelled then Exited else Sending(w.loops[i].phase.n))
            && (Enabled(v, Send(i)) <==> !w.loops[i].cancelled)
  {
  }

  // A Start or Stop that finds a loop cancels that one and waits for it; with none to
  // wait for a Start goes on to its token, and a Stop has nothing to do.
  lemma BeginExact(w: World, starting: bool)
    requires Enabled(w, if starting then BeginStart else BeginStop)
    ensures var v := Step(w, if starting then BeginStart else BeginStop);
            && v.current == w.current && v.beacons == w.beacons
            && match w.current
               case Some(i) =>
                 && OnlyLoop(w, v, i) && v.loops[i] == w.loops[i].(cancelled := true)
                 && v.holder == Joining(starting)
               case None => v.loops == w.loops && v.holder == if starting then FetchingToken else w.holder
  {
  }

  // Once the loop is gone it is no longer the current one; a Start goes on to its token.
  lemma JoinExact(w: World)
    requires Enabled(w, Joined)
    ensures Step(w, Joined) ==
            w.(current := None, holder := if w.holder == Joining(true) then FetchingToken else Nobody)
  {
  }

  // With a token a new loop, not cancelled, is started and becomes the current one;
  // without one nothing is. Either way the Start is over.
  lemma TokenExact(w: World)
    requires w.holder == FetchingToken && Enabled(w, Token(true))
    ensures var v := Step(w, Token(true));
            && v.loops == w.loops + [LoopState(false, Discovering)] && v.current == Some(|w.loops|)
            && v.holder == Nobody && v.beacons == w.beacons
    ensures Step(w, Token(false)) == w.(holder := Nobody)
  {
  }

  // A loop without a beacon URL is over; with one its first beacon is number 1.
  lemma DiscoverExact(w: World, i: nat, ok: bool)
    requires Enabled(w, Discover(i, ok))
    ensures var v := Step(w, Discover(i, ok));
            v.loops[i].phase == (if ok then Sending(1) else Exited) && OnlyLoop(w, v, i) && v.beacons == w.beacons
  {
  }

  // Whether the loop sends a beacon before it looks at its context again.
  function Pending(x: LoopPhase): nat {
    if x.Discovering? || x.Sending? then 1 else 0
  }

  lemma CancelledStep(w: World, e: Event, i: nat)
    requires Enabled(w, e) && i < |w.loops| && w.loops[i].cancelled
    ensures var v := Step(w, e);
            && i < |v.loops| && v.loops[i].cancelled
            && (if e == Send(i) then 1 else 0) + Pending(v.loops[i].phase) <= Pending(w.loops[i].phase)
  {
  }

  // Once cancelled a loop sends at most one more beacon, however long the run goes on,
  // and none if it was waiting for a tick.
  lemma {:induction false} CancelledFallsSilent(w: World, es: seq<Event>, v: World, i: nat)
    requires Exec(w, es) == Some(v) && i < |w.loops| && w.loops[i].cancelled
    ensures i < |v.loops| && v.loops[i].cancelled
    ensures Count(es, (e: Event) => e == Send(i)) + Pending(v.loops[i].phase) <= Pending(w.loops[i].phase)
  {
    if es != [] {
      var front, e := es[..|es| - 1], es[|es| - 1];
      var u := Exec(w, front).value;
      CancelledFallsSilent(w, front, u, i);
      CancelledStep(u, e, i);
      CountAppend(front, [e], (e: Event) => e == Send(i));
      assert es == front + [e];
    }
  }
}
