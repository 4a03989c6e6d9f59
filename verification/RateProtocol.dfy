// The limiter under any interleaving of its callers, its window timer, context
// cancellation and Close (internal/gql/ratelimit.go:37-137).
module RateProtocol {
  import opened Common
  import opened RateLimiting

  // Where a goroutine is in Acquire ... Release. Waiting means parked in the select.
  datatype Phase = Idle | Trying | Waiting(ch: nat) | Holding

  datatype Grant = Grant(at: int, epoch: nat)

  // `epoch` counts the window resets; `grants` and `start`, the index of the
  // first grant of the current window, record history. `stale` means that the
  // timer had fired when Close stopped it, so its callback may still run.
  datatype World = World(
    l: Limiter, procs: seq<Phase>, now: int, stale: bool, grants: seq<Grant>, epoch: nat, start: nat)

  datatype Event =
    | Call(p: nat)
    | Pass(p: nat, ctxDone: bool)
    | Wake(p: nat)
    | GiveUp(p: nat)
    | Finish(p: nat)
    | Reset
    | Shut
    | Elapse(dt: nat)

  ghost predicate Enabled(w: World, e: Event) {
    match e
    case Call(p) => p < |w.procs| && w.procs[p].Idle?
    case Pass(p, _) => p < |w.procs| && w.procs[p].Trying?
    case Wake(p) => p < |w.procs| && w.procs[p].Waiting? && w.procs[p].ch in w.l.signalled
    case GiveUp(p) => p < |w.procs| && w.procs[p].Waiting?
    case Finish(p) => p < |w.procs| && w.procs[p].Holding?
    case Reset => if w.l.closed then w.stale else w.l.timer.Some? && w.l.timer.value <= w.now
    case Shut => true
    case Elapse(_) => true
  }

  function PhaseAfter(a: Attempt): Phase {
    match a
    case Granted => Holding
    case Parked(ch) => Waiting(ch)
    case Closed => Idle
    case Cancelled => Idle
  }

  function Step(w: World, e: Event): World
    requires Enabled(w, e)
  {
    match e
    case Call(p) => w.(procs := w.procs[p := Trying])
    case Pass(p, ctxDone) =>
      var (l, a) := TryAcquire(w.l, w.now, ctxDone);
      w.(l := l, procs := w.procs[p := PhaseAfter(a)],
         grants := if a.Granted? then w.grants + [Grant(w.now, w.epoch)] else w.grants)
    case Wake(p) =>
      w.(l := w.l.(signalled := w.l.signalled - {w.procs[p].ch}), procs := w.procs[p := Trying])
    case GiveUp(p) => w.(l := RemoveWaiter(w.l, w.procs[p].ch), procs := w.procs[p := Idle])
    case Finish(p) => w.(l := Release(w.l), procs := w.procs[p := Idle])
    case Reset =>
      if w.l.closed then w.(l := WindowReset(w.l), stale := false)
      else w.(l := WindowReset(w.l), epoch := w.epoch + 1, start := |w.grants|)
    case Shut =>
      w.(l := Close(w.l), stale := w.stale || (w.l.timer.Some? && w.l.timer.value <= w.now))
    case Elapse(dt) => w.(now := w.now + dt)
  }

  function Init(capacity: int, window: nat, callers: nat, now: int): World {
    World(NewLimiter(capacity, window), seq(callers, _ => Idle), now, false, [], 0, 0)
  }

  // The world after the events, provided each was possible when it came.
  ghost function Exec(w: World, es: seq<Event>): Option<World> {
    if es == [] then Some(w)
    else
      match Exec(w, es[..|es| - 1])
      case None => None
      case Some(v) => if Enabled(v, es[|es| - 1]) then Some(Step(v, es[|es| - 1])) else None
  }

  // ------------------------------------------------------------------
  // No lost wake-up
  // ------------------------------------------------------------------

  // Each parked goroutine has a channel of its own, which is in the waiter list
  // or has a token in it, never both; and the list holds no other channel.
  ghost predicate ChannelsOk(l: Limiter, procs: seq<Phase>) {
    && (forall p :: 0 <= p < |procs| && procs[p].Waiting? ==>
          procs[p].ch < l.nextChan && (procs[p].ch in l.waiters <==> procs[p].ch !in l.signalled))
    && (forall p, q :: 0 <= p < q < |procs| && procs[p].Waiting? && procs[q].Waiting? ==> procs[p].ch != procs[q].ch)
    && (forall i, j :: 0 <= i < j < |l.waiters| ==> l.waiters[i] != l.waiters[j])
    && (forall ch :: ch in l.waiters ==> ParkedOn(procs, ch))
    && (forall ch :: ch in l.signalled ==> ch < l.nextChan)
  }

  ghost predicate ParkedOn(procs: seq<Phase>, ch: nat) {
    exists p :: 0 <= p < |procs| && procs[p] == Waiting(ch)
  }

  ghost predicate CountersOk(l: Limiter, procs: seq<Phase>) {
    && l.concurrent == Count(procs, (x: Phase) => x.Holding?)
    && 0 <= l.total <= Max(l.capacity, 0)
    && l.concurrent <= Max(l.capacity, 0)
    && (l.waiters != [] && !l.closed ==> Max(l.total, l.concurrent) >= l.capacity)
    && (l.closed ==> l.waiters == [])
    && (!l.closed ==> (l.total > 0 <==> l.timer.Some?))
  }

  ghost predicate WakeInv(w: World) {
    ChannelsOk(w.l, w.procs) && CountersOk(w.l, w.procs)
  }

  lemma {:induction false} WithoutUnique(ws: seq<nat>, ch: nat)
    requires forall i, j :: 0 <= i < j < |ws| ==> ws[i] != ws[j]
    ensures ch !in Without(ws, ch)
    ensures var r := Without(ws, ch); forall i, j :: 0 <= i < j < |r| ==> r[i] != r[j]
  {
    if ws != [] && ws[0] != ch {
      WithoutUnique(ws[1..], ch);
      assert ws[0] !in ws[1..];
      assert Without(ws, ch) == [ws[0]] + Without(ws[1..], ch);
    }
  }

  lemma ChannelsStep(w: World, e: Event)
    requires ChannelsOk(w.l, w.procs) && Enabled(w, e)
    requires w.l.closed ==> w.l.waiters == []
    ensures ChannelsOk(Step(w, e).l, Step(w, e).procs)
  {
    match e
    case Call(p) => StillParked(w, p, Trying);
    case Pass(p, ctxDone) => ChannelsPass(w, p, ctxDone);
    case Wake(p) => StillParked(w, p, Trying);
    case GiveUp(p) => ChannelsGiveUp(w, p);
    case Finish(p) => StillParked(w, p, Idle);
    case Reset =>
    case Shut =>
    case Elapse(_) =>
  }

  // Moving a goroutine that is not parked on ch leaves whoever is parked there.
  lemma StillParked(w: World, p: nat, x: Phase)
    requires p < |w.procs|
    ensures forall ch :: ParkedOn(w.procs, ch) && w.procs[p] != Waiting(ch) ==> ParkedOn(w.procs[p := x], ch)
  {
    forall ch | ParkedOn(w.procs, ch) && w.procs[p] != Waiting(ch)
      ensures ParkedOn(w.procs[p := x], ch)
    {
      var q :| 0 <= q < |w.procs| && w.procs[q] == Waiting(ch);
      assert w.procs[p := x][q] == Waiting(ch);
    }
  }

  lemma ChannelsPass(w: World, p: nat, ctxDone: bool)
    requires ChannelsOk(w.l, w.procs) && Enabled(w, Pass(p, ctxDone))
    ensures ChannelsOk(Step(w, Pass(p, ctxDone)).l, Step(w, Pass(p, ctxDone)).procs)
  {
    var (l, a) := TryAcquire(w.l, w.now, ctxDone);
    StillParked(w, p, PhaseAfter(a));
    if a.Parked? {
      assert w.procs[p := Waiting(a.ch)][p] == Waiting(a.ch);
      assert ParkedOn(w.procs[p := Waiting(a.ch)], a.ch);
    }
  }

  lemma ChannelsGiveUp(w: World, p: nat)
    requires ChannelsOk(w.l, w.procs) && Enabled(w, GiveUp(p))
    ensures ChannelsOk(Step(w, GiveUp(p)).l, Step(w, GiveUp(p)).procs)
  {
    WithoutUnique(w.l.waiters, w.procs[p].ch);
    StillParked(w, p, Idle);
  }

  lemma CountersStep(w: World, e: Event)
    requires CountersOk(w.l, w.procs) && Enabled(w, e)
    ensures CountersOk(Step(w, e).l, Step(w, e).procs)
  {
    var held := (x: Phase) => x.Holding?;
    match e
    case Call(p) => CountUpdate(w.procs, p, Trying, held);
    case Pass(p, ctxDone) =>
      CountUpdate(w.procs, p, PhaseAfter(TryAcquire(w.l, w.now, ctxDone).1), held);
    case Wake(p) => CountUpdate(w.procs, p, Trying, held);
    case GiveUp(p) => CountUpdate(w.procs, p, Idle, held);
    case Finish(p) => CountUpdate(w.procs, p, Idle, held);
    case Reset =>
    case Shut =>
    case Elapse(_) =>
  }

  lemma {:induction false} WakeInvHolds(capacity: int, window: nat, callers: nat, now: int, es: seq<Event>, w: World)
    requires Exec(Init(capacity, window, callers, now), es) == Some(w)
    ensures WakeInv(w) && w.l.capacity == capacity && w.l.window == window && |w.procs| == callers
  {
    var w0 := Init(capacity, window, callers, now);
    if es == [] {
      CountZero(w0.procs, (x: Phase) => x.Holding?);
    } else {
      var v := Exec(w0, es[..|es| - 1]).value;
      WakeInvHolds(capacity, window, callers, now, es[..|es| - 1], v);
      ChannelsStep(v, es[|es| - 1]);
      CountersStep(v, es[|es| - 1]);
    }
  }

  // In every reachable state a parked Acquire either has its token or is in the
  // waiter list; and while anyone is in the list of an open limiter, somebody
  // holds a slot it will release or the window timer is armed.
  lemma NoLostWakeup(capacity: int, window: nat, callers: nat, now: int, es: seq<Event>, w: World)
    requires Exec(Init(capacity, window, callers, now), es) == Some(w)
    ensures forall p :: 0 <= p < |w.procs| && w.procs[p].Waiting? ==>
              (w.procs[p].ch in w.l.waiters <==> w.procs[p].ch !in w.l.signalled)
    ensures w.l.closed ==> forall p :: 0 <= p < |w.procs| && w.procs[p].Waiting? ==> w.procs[p].ch in w.l.signalled
    ensures w.l.waiters != [] ==> !w.l.closed && Max(w.l.total, w.l.concurrent) >= capacity
    ensures w.l.waiters != [] && capacity >= 1 ==>
              w.l.timer.Some? || exists p :: 0 <= p < |w.procs| && w.procs[p].Holding?
    ensures 0 <= w.l.total <= Max(capacity, 0) && 0 <= w.l.concurrent <= Max(capacity, 0)
  {
    WakeInvHolds(capacity, window, callers, now, es, w);
    CountZero(w.procs, (x: Phase) => x.Holding?);
  }

  // Each of the three steps that free capacity or close the limiter hands a
  // token to every goroutine parked at that moment.
  lemma WakingSteps(w: World, e: Event)
    requires WakeInv(w) && Enabled(w, e) && (e.Finish? || e.Reset? || e.Shut?)
    ensures var v := Step(w, e);
            forall p :: 0 <= p < |v.procs| && v.procs[p].Waiting? ==>
              w.procs[p] == v.procs[p] && Enabled(v, Wake(p))
  {
  }

  // A step grants a slot exactly where a caller whose context is alive finds the
  // limiter open and both counters below the capacity, and then one; a caller whose
  // context is done gets nothing, leaves the limiter as it was and is through.
  lemma GrantsExact(w: World, e: Event)
    requires Enabled(w, e)
    ensures var v := Step(w, e);
            if e.Pass? && !e.ctxDone && !w.l.closed && w.l.total < w.l.capacity && w.l.concurrent < w.l.capacity
            then v.grants == w.grants + [Grant(w.now, w.epoch)] && v.procs == w.procs[e.p := Holding]
            else v.grants == w.grants && forall p :: 0 <= p < |v.procs| && v.procs[p].Holding? ==> w.procs[p].Holding?
    ensures e.Pass? && e.ctxDone ==> Step(w, e) == w.(procs := w.procs[e.p := Idle])
    ensures e.Pass? && w.l.closed ==> Step(w, e) == w.(procs := w.procs[e.p := Idle])
  {
  }

  // The window timer resets an open limiter once it is due, which starts a new window.
  // On a closed one it can run at most once, and only if it was due when Close stopped it.
  lemma ResetsExact(w: World)
    ensures !w.l.closed ==>
              (Enabled(w, Reset) <==> exists due :: w.l.timer == Some(due) && due <= w.now)
    ensures !w.l.closed && Enabled(w, Reset) ==>
              Step(w, Reset).epoch == w.epoch + 1 && Step(w, Reset).start == |w.grants| && Step(w, Reset).l.total == 0
    ensures w.l.closed && Enabled(w, Reset) ==>
              !Enabled(Step(w, Reset), Reset) && Step(w, Reset).grants == w.grants && Step(w, Reset).l.closed
    ensures var v := Step(w, Shut);
            && v.l.closed && v.l.timer == None && v.grants == w.grants && v.procs == w.procs
            && (Enabled(v, Reset) <==> w.stale || exists due :: w.l.timer == Some(due) && due <= w.now)
  {
  }

  // A release makes room for one, never below none.
  lemma ReleaseExact(w: World, p: nat)
    requires Enabled(w, Finish(p))
    ensures var v := Step(w, Finish(p));
            && v.procs == w.procs[p := Idle] && v.grants == w.grants && v.l.total == w.l.total && v.l.timer == w.l.timer
            && (w.l.concurrent > 0 ==> v.l.concurrent == w.l.concurrent - 1)
            && (w.l.concurrent <= 0 ==> v.l.concurrent == w.l.concurrent)
  {
  }

  // A caller that gives up while it waits is through, and neither listed nor served any more.
  lemma GivingUp(w: World, p: nat)
    requires WakeInv(w) && Enabled(w, GiveUp(p))
    ensures var v := Step(w, GiveUp(p));
            && v.procs == w.procs[p := Idle] && w.procs[p].ch !in v.l.waiters && v.grants == w.grants
            && v.l == w.l.(waiters := v.l.waiters)
            && forall ch :: ch != w.procs[p].ch ==> (ch in v.l.waiters <==> ch in w.l.waiters)
  {
    WithoutUnique(w.l.waiters, w.procs[p].ch);
  }

  // ------------------------------------------------------------------
  // The rate bound
  // ------------------------------------------------------------------

  // Grant i opened its window: it armed the timer.
  predicate First(gs: seq<Grant>, i: nat)
    requires i < |gs|
  {
    i == 0 || gs[i - 1].epoch < gs[i].epoch
  }

  ghost predicate Ordered(gs: seq<Grant>) {
    forall i, j :: 0 <= i < j < |gs| ==> gs[i].at <= gs[j].at && gs[i].epoch <= gs[j].epoch
  }

  // At most `capacity` grants per window.
  ghost predicate Capped(gs: seq<Grant>, capacity: int) {
    forall i, j :: 0 <= i <= j < |gs| && gs[i].epoch == gs[j].epoch ==> j - i < capacity
  }

  // A grant of a later window comes at least `window` after the first grant of an earlier one.
  ghost predicate Spaced(gs: seq<Grant>, window: nat) {
    forall i, j :: 0 <= i < j < |gs| && gs[i].epoch < gs[j].epoch && First(gs, i) ==> gs[i].at + window <= gs[j].at
  }

  ghost predicate PastWindowsOver(gs: seq<Grant>, start: nat, window: nat, now: int)
    requires start <= |gs|
  {
    forall i :: 0 <= i < start && First(gs, i) ==> gs[i].at + window <= now
  }

  ghost predicate CurrentWindow(l: Limiter, gs: seq<Grant>, start: nat)
    requires start <= |gs|
  {
    && l.total == |gs| - start
    && l.timer == (if l.total == 0 then None else Some(gs[start].at + l.window))
  }

  // No grant lies in the future, and those of the current epoch are the ones from `start` on.
  ghost predicate Stamped(gs: seq<Grant>, start: nat, epoch: nat, now: int) {
    forall i :: 0 <= i < |gs| ==>
      gs[i].at <= now && gs[i].epoch <= epoch && (gs[i].epoch == epoch <==> start <= i)
  }

  ghost predicate RateInv(w: World) {
    && w.start <= |w.grants|
    && Ordered(w.grants) && Capped(w.grants, w.l.capacity) && Spaced(w.grants, w.l.window)
    && Stamped(w.grants, w.start, w.epoch, w.now)
    && PastWindowsOver(w.grants, w.start, w.l.window, w.now)
    && (!w.l.closed ==> CurrentWindow(w.l, w.grants, w.start))
  }

  lemma GrantKeepsCap(gs: seq<Grant>, start: nat, epoch: nat, now: int, capacity: int)
    requires Ordered(gs) && Capped(gs, capacity) && Stamped(gs, start, epoch, now)
    requires start <= |gs| && |gs| - start < capacity
    ensures Ordered(gs + [Grant(now, epoch)]) && Capped(gs + [Grant(now, epoch)], capacity)
    ensures Stamped(gs + [Grant(now, epoch)], start, epoch, now)
  {
  }

  lemma GrantKeepsSpace(gs: seq<Grant>, start: nat, epoch: nat, now: int, window: nat)
    requires Spaced(gs, window) && Stamped(gs, start, epoch, now)
    requires start <= |gs| && PastWindowsOver(gs, start, window, now)
    ensures Spaced(gs + [Grant(now, epoch)], window)
    ensures PastWindowsOver(gs + [Grant(now, epoch)], start, window, now)
  {
    var more := gs + [Grant(now, epoch)];
    forall i | 0 <= i < |gs|
      ensures First(more, i) <==> First(gs, i)
    {
    }
  }

  lemma RateStep(w: World, e: Event)
    requires RateInv(w) && Enabled(w, e)
    ensures RateInv(Step(w, e))
  {
    match e
    case Call(p) =>
    case Pass(p, ctxDone) => RatePass(w, p, ctxDone);
    case Wake(p) =>
    case GiveUp(p) =>
    case Finish(p) =>
    case Reset => RateReset(w);
    case Shut =>
    case Elapse(dt) =>
  }

  lemma RatePass(w: World, p: nat, ctxDone: bool)
    requires RateInv(w) && Enabled(w, Pass(p, ctxDone))
    ensures RateInv(Step(w, Pass(p, ctxDone)))
  {
    var (l, a) := TryAcquire(w.l, w.now, ctxDone);
    if a.Granted? {
      GrantKeepsCap(w.grants, w.start, w.epoch, w.now, w.l.capacity);
      GrantKeepsSpace(w.grants, w.start, w.epoch, w.now, w.l.window);
      assert CurrentWindow(l, w.grants + [Grant(w.now, w.epoch)], w.start);
    }
  }

  lemma RateReset(w: World)
    requires RateInv(w) && Enabled(w, Reset)
    ensures RateInv(Step(w, Reset))
  {
    if !w.l.closed {
      var gs := w.grants;
      forall i | 0 <= i < |gs| && First(gs, i)
        ensures gs[i].at + w.l.window <= w.now
      {
        if w.start <= i {
          assert i == w.start;
        }
      }
    }
  }

  lemma {:induction false} RateInvHolds(capacity: int, window: nat, callers: nat, now: int, es: seq<Event>, w: World)
    requires Exec(Init(capacity, window, callers, now), es) == Some(w)
    ensures RateInv(w) && w.l.capacity == capacity && w.l.window == window
  {
    if es != [] {
      var v := Exec(Init(capacity, window, callers, now), es[..|es| - 1]).value;
      RateInvHolds(capacity, window, callers, now, es[..|es| - 1], v);
      RateStep(v, es[|es| - 1]);
    }
  }

  // The first grant after i that belongs to a later window.
  lemma NextWindow(gs: seq<Grant>, i: nat, c: nat) returns (f: nat)
    requires Ordered(gs) && Capped(gs, c) && i + c < |gs|
    ensures i < f <= i + c && First(gs, f) && gs[i].epoch < gs[f].epoch
    ensures gs[f - 1].epoch == gs[i].epoch
  {
    assert gs[i + c].epoch != gs[i].epoch;
    f := i + 1;
    while gs[f].epoch == gs[i].epoch
      invariant i < f <= i + c
      invariant gs[f - 1].epoch == gs[i].epoch
      decreases i + c - f
    {
      f := f + 1;
    }
  }

  // Two grants 2c - 1 places apart are at least a window apart: either the window
  // that follows the earlier grant's also ends between them, or the earlier grant
  // opened its own window.
  lemma Spread(gs: seq<Grant>, c: nat, window: nat, i: nat)
    requires Ordered(gs) && Capped(gs, c) && Spaced(gs, window)
    requires c >= 1 && i + 2 * c - 1 < |gs|
    ensures gs[i].at + window <= gs[i + 2 * c - 1].at
  {
    var last := i + 2 * c - 1;
    var f := NextWindow(gs, i, c);
    if f < i + c {
      assert gs[last].epoch != gs[f].epoch;
      assert gs[f].at + window <= gs[last].at;
    } else {
      if i > 0 {
        assert gs[i - 1].epoch != gs[f - 1].epoch;
      }
      assert First(gs, i);
      assert gs[i].at + window <= gs[f].at;
    }
  }

  // If any two matches are fewer than m places apart there are at most m matches.
  lemma {:induction false} CountSpan(gs: seq<Grant>, p: Grant -> bool, m: nat)
    requires forall i, j :: 0 <= i <= j < |gs| && p(gs[i]) && p(gs[j]) ==> j - i < m
    ensures Count(gs, p) <= m
  {
    if gs != [] {
      if p(gs[0]) {
        CountBelow(gs, p, m);
      } else {
        assert forall i :: 0 <= i < |gs[1..]| ==> gs[1..][i] == gs[i + 1];
        CountSpan(gs[1..], p, m);
      }
    }
  }

  lemma {:induction false} CountBelow(gs: seq<Grant>, p: Grant -> bool, m: nat)
    requires forall j :: 0 <= j < |gs| && p(gs[j]) ==> j < m
    ensures Count(gs, p) <= m
  {
    if gs != [] {
      assert forall i :: 0 <= i < |gs[1..]| ==> gs[1..][i] == gs[i + 1];
      if m == 0 {
        CountBelow(gs[1..], p, 0);
      } else {
        CountBelow(gs[1..], p, m - 1);
      }
    }
  }

  function During(from: int, window: nat): Grant -> bool {
    (g: Grant) => from <= g.at < from + window
  }

  // In every run, any half-open interval of length `window` holds at most
  // 2 * capacity - 1 grants, and none at all when the capacity is not positive.
  lemma RateBound(capacity: int, window: nat, callers: nat, now: int, es: seq<Event>, w: World, from: int)
    requires Exec(Init(capacity, window, callers, now), es) == Some(w)
    ensures Count(w.grants, During(from, window)) <= Max(2 * capacity - 1, 0)
  {
    RateInvHolds(capacity, window, callers, now, es, w);
    if w.grants != [] {
      GrantsNeedCapacity(w.grants, capacity);
      FewInWindow(w.grants, capacity, window, from);
    }
  }

  lemma FewInWindow(gs: seq<Grant>, c: nat, window: nat, from: int)
    requires Ordered(gs) && Capped(gs, c) && Spaced(gs, window) && c >= 1
    ensures Count(gs, During(from, window)) <= 2 * c - 1
  {
    var p, m := During(from, window), 2 * c - 1;
    forall i, j | 0 <= i <= j < |gs| && p(gs[i]) && p(gs[j])
      ensures j - i < m
    {
      if i + m < |gs| {
        Spread(gs, c, window, i);
      }
    }
    CountSpan(gs, p, m);
  }

  // A limiter without capacity grants nothing.
  lemma GrantsNeedCapacity(gs: seq<Grant>, capacity: int)
    requires Capped(gs, capacity) && gs != []
    ensures capacity >= 1
  {
    var e := gs[0].epoch;
  }

  // ------------------------------------------------------------------
  // The bound is attained
  // ------------------------------------------------------------------

  lemma ExecSnoc(w: World, es: seq<Event>, v: World, e: Event)
    requires Exec(w, es) == Some(v) && Enabled(v, e)
    ensures Exec(w, es + [e]) == Some(Step(v, e))
  {
    assert (es + [e])[..|es|] == es;
  }

  // One caller, not in Acquire and holding nothing, on an open limiter.
  predicate Quiet(w: World) {
    w.procs == [Idle] && w.l.concurrent == 0 && w.l.waiters == [] && !w.l.closed && w.l.total >= 0
  }

  // What k grants at one instant make of a quiet world.
  predicate AfterGrants(u: World, v: World, k: nat) {
    && Quiet(v) && v.now == u.now && v.epoch == u.epoch && v.l.total == u.l.total + k
    && v.l.capacity == u.l.capacity && v.l.window == u.l.window
    && v.l.timer == (if k > 0 && u.l.timer.None? then Some(u.now + u.l.window) else u.l.timer)
    && v.grants == u.grants + Repeat(Grant(u.now, u.epoch), k)
  }

  // The lone caller takes a slot and gives it back.
  lemma OneGrant(v: World) returns (v1: World, v2: World, v3: World)
    requires Quiet(v) && v.l.total < v.l.capacity
    ensures Enabled(v, Call(0)) && v1 == Step(v, Call(0))
    ensures Enabled(v1, Pass(0, false)) && v2 == Step(v1, Pass(0, false))
    ensures Enabled(v2, Finish(0)) && v3 == Step(v2, Finish(0))
    ensures AfterGrants(v, v3, 1)
  {
    v1 := Step(v, Call(0));
    v2 := Step(v1, Pass(0, false));
    v3 := Step(v2, Finish(0));
    assert Repeat(Grant(v.now, v.epoch), 1) == [Grant(v.now, v.epoch)];
  }

  lemma {:induction false} Burst(w: World, es: seq<Event>, v: World, k: nat) returns (es': seq<Event>, v': World)
    requires Exec(w, es) == Some(v) && Quiet(v) && v.l.total + k <= v.l.capacity
    ensures Exec(w, es') == Some(v') && AfterGrants(v, v', k)
  {
    if k == 0 {
      return es, v;
    }
    var es1, v1 := Burst(w, es, v, k - 1);
    var v2, v3, v4 := OneGrant(v1);
    ExecSnoc(w, es1, v1, Call(0));
    ExecSnoc(w, es1 + [Call(0)], v2, Pass(0, false));
    ExecSnoc(w, es1 + [Call(0)] + [Pass(0, false)], v3, Finish(0));
    es', v' := es1 + [Call(0)] + [Pass(0, false)] + [Finish(0)], v4;
    GrantsAdd(v, v1, v', k - 1);
  }

  lemma GrantsAdd(u: World, v: World, v': World, k: nat)
    requires AfterGrants(u, v, k) && AfterGrants(v, v', 1)
    ensures AfterGrants(u, v', k + 1)
  {
    var g := Grant(u.now, u.epoch);
    assert Repeat(g, 1) == [g];
    assert Repeat(g, k + 1) == Repeat(g, k) + [g];
  }

  // A pause or a reset, and a burst.
  lemma BurstAfter(w: World, es: seq<Event>, v: World, e: Event, k: nat) returns (es': seq<Event>, v': World)
    requires Exec(w, es) == Some(v) && Enabled(v, e)
    requires Quiet(Step(v, e)) && Step(v, e).l.total + k <= Step(v, e).l.capacity
    ensures Exec(w, es') == Some(v') && AfterGrants(Step(v, e), v', k)
  {
    ExecSnoc(w, es, v, e);
    es', v' := Burst(w, es + [e], Step(v, e), k);
  }

  function SharpGrants(capacity: nat, window: nat): seq<Grant>
    requires capacity >= 1
  {
    Repeat(Grant(0, 0), 1) + Repeat(Grant(window, 0), capacity - 1) + Repeat(Grant(window, 1), capacity)
  }

  lemma SharpCount(capacity: nat, window: nat)
    requires capacity >= 1 && window >= 1
    ensures Count(SharpGrants(capacity, window), During(1, window)) == 2 * capacity - 1
  {
    var p := During(1, window);
    CountRepeat(Grant(0, 0), 1, p);
    CountRepeat(Grant(window, 0), capacity - 1, p);
    CountRepeat(Grant(window, 1), capacity, p);
    CountAppend(Repeat(Grant(0, 0), 1), Repeat(Grant(window, 0), capacity - 1), p);
    CountAppend(Repeat(Grant(0, 0), 1) + Repeat(Grant(window, 0), capacity - 1), Repeat(Grant(window, 1), capacity), p);
  }

  // A grant at 0, and the rest of the first window when its timer is due.
  lemma FirstWindow(capacity: nat, window: nat) returns (es: seq<Event>, w: World)
    requires capacity >= 1
    ensures Exec(Init(capacity, window, 1, 0), es) == Some(w) && Quiet(w)
    ensures w.now == window && w.epoch == 0 && w.l.timer == Some(window) && w.l.capacity == capacity
    ensures w.grants == Repeat(Grant(0, 0), 1) + Repeat(Grant(window, 0), capacity - 1)
  {
    var w0 := Init(capacity, window, 1, 0);
    var es1, v1 := Burst(w0, [], w0, 1);
    assert v1.grants == Repeat(Grant(0, 0), 1);
    es, w := BurstAfter(w0, es1, v1, Elapse(window), capacity - 1);
  }

  // For every positive capacity and window some run meets the bound exactly: a
  // grant at 0 arms the timer, and the rest of the first window and all of the
  // second are granted at the instant the timer fires.
  lemma RateBoundIsSharp(capacity: nat, window: nat) returns (es: seq<Event>, w: World)
    requires capacity >= 1 && window >= 1
    ensures Exec(Init(capacity, window, 1, 0), es) == Some(w)
    ensures Count(w.grants, During(1, window)) == 2 * capacity - 1
  {
    var w0 := Init(capacity, window, 1, 0);
    var es1, v1 := FirstWindow(capacity, window);
    es, w := BurstAfter(w0, es1, v1, Reset, capacity);
    assert w.grants == SharpGrants(capacity, window);
    SharpCount(capacity, window);
  }

  // ------------------------------------------------------------------
  // The documented bound
  // ------------------------------------------------------------------

  // The comment on the limiter: no more than `capacity` grants in any window of time.
  ghost predicate RollingBound(capacity: int, window: nat) {
    forall callers: nat, now: int, es: seq<Event>, w: World, from: int ::
      Exec(Init(capacity, window, callers, now), es) == Some(w) ==>
        Count(w.grants, During(from, window)) <= Max(capacity, 0)
  }

  // It holds of a limiter exactly when its capacity is at most 1 or its window empty.
  lemma RollingBoundExact(capacity: int, window: nat)
    ensures RollingBound(capacity, window) <==> capacity <= 1 || window == 0
  {
    if capacity <= 1 || window == 0 {
      forall callers: nat, now: int, es: seq<Event>, w: World, from: int |
        Exec(Init(capacity, window, callers, now), es) == Some(w)
        ensures Count(w.grants, During(from, window)) <= Max(capacity, 0)
      {
        RateBound(capacity, window, callers, now, es, w, from);
        if window == 0 {
          CountZero(w.grants, During(from, window));
        }
      }
    } else {
      var es, w := RateBoundIsSharp(capacity, window);
      assert Count(w.grants, During(1, window)) > Max(capacity, 0);
    }
  }
}
