// The session's loops interleaved: reconcile ticks, PubSub events, the offline
// watchdog, and the claims both loops can start (watch_session.go:188-552).
module SessionRuns {
  import opened Common
  import opened Inventory
  import opened Claiming
  import opened Session

  datatype Loop = Reconcile | PubSub

  // Where a loop is. Requesting and Confirming are inside claimAndAdvance, after
  // it took claimMu: waiting for the reply, and polling for confirmation.
  datatype Phase =
    | Idle
    | Fetching
    | Triggered(i: nat)
    | Requesting(i: nat, claimId: string)
    | Confirming(i: nat)
    | Stopped

  datatype Entry = Asked(i: nat) | Got(i: nat)

  // `outcome` is the first error handed to the error group; `log` records the
  // claim requests sent and granted, `ticks` the reconcile ticks that passed or
  // failed their checks.
  datatype World = World(
    s: State, now: int, recon: Phase, pub: Phase, cancelled: bool, outcome: Option<Stop>,
    log: seq<Entry>, lastTick: Option<int>, ticks: nat)

  datatype Event =
    | Tick
    | Fetched(report: Option<(string, int)>)
    | DownMsg
    | UpMsg
    | ProgressMsg(id: string, instance: string, minutes: int)
    | ClaimMsg(id: string, instance: string)
    | WatchdogTick
    | EnterClaim(l: Loop)
    | Reply(l: Loop, reply: ClaimReply)
    | Advanced(l: Loop)
    | Abandon(l: Loop)
    | Quit(l: Loop)
    | Cancel
    | Elapse(dt: nat)

  function PhaseOf(w: World, l: Loop): Phase {
    match l case Reconcile => w.recon case PubSub => w.pub
  }

  function Enter(w: World, l: Loop, x: Phase): World {
    match l case Reconcile => w.(recon := x) case PubSub => w.(pub := x)
  }

  // The loop returns an error: the group keeps the first one and cancels the rest.
  function StopWith(w: World, l: Loop, stop: Stop): World {
    Fail(Enter(w, l, Stopped), stop)
  }

  function Fail(w: World, stop: Stop): World {
    w.(outcome := if w.outcome.None? then Some(stop) else w.outcome, cancelled := true)
  }

  function AfterTrigger(t: Option<nat>): Phase {
    match t case Some(i) => Triggered(i) case None => Idle
  }

  predicate InClaim(x: Phase) { x.Requesting? || x.Confirming? }

  // claimMu is free.
  predicate ClaimFree(w: World) { !InClaim(w.recon) && !InClaim(w.pub) }

  // Every phase and the active pointer refer to a drop of the session.
  ghost predicate InRange(w: World) {
    ActiveInRange(w.s) && PhaseInRange(w.recon, |w.s.drops|) && PhaseInRange(w.pub, |w.s.drops|)
  }

  predicate PhaseInRange(x: Phase, n: nat) {
    match x
    case Triggered(i) => i < n
    case Requesting(i, _) => i < n
    case Confirming(i) => i < n
    case _ => true
  }

  ghost predicate Enabled(w: World, e: Event) {
    InRange(w) &&
    match e
    case Tick => w.recon.Idle? && !w.cancelled && (w.lastTick.Some? ==> w.lastTick.value < w.now)
    case Fetched(_) => w.recon.Fetching?
    case DownMsg => w.pub.Idle?
    case UpMsg => w.pub.Idle?
    case ProgressMsg(_, _, _) => w.pub.Idle?
    case ClaimMsg(_, _) => w.pub.Idle?
    case WatchdogTick => true
    case EnterClaim(l) => PhaseOf(w, l).Triggered? && ClaimFree(w)
    case Reply(l, _) => PhaseOf(w, l).Requesting?
    case Advanced(l) => PhaseOf(w, l).Confirming?
    case Abandon(l) => PhaseOf(w, l).Confirming? && w.cancelled
    case Quit(l) => PhaseOf(w, l).Idle? && w.cancelled
    case Cancel => true
    case Elapse(_) => true
  }

  ghost function Step(cfg: Config, w: World, e: Event): World
    requires Enabled(w, e)
  {
    match e
    case Tick =>
      var v := w.(lastTick := Some(w.now), ticks := w.ticks + 1);
      (match TickVerdict(cfg, w.s, w.now)
       case Some(stop) => StopWith(v, Reconcile, stop)
       case None => v.(recon := Fetching))
    case Fetched(report) =>
      (match report
       case None => w.(recon := Idle)
       case Some(r) =>
         var (s, t) := Report(w.s, r.0, "", r.1, w.now);
         w.(s := s, recon := AfterTrigger(t)))
    case DownMsg => w.(s := StreamDown(w.s, w.now))
    case UpMsg => w.(s := StreamUp(w.s))
    case ProgressMsg(id, instance, minutes) =>
      var (s, t) := Report(w.s, id, instance, minutes, w.now);
      w.(s := s, pub := AfterTrigger(t))
    case ClaimMsg(id, instance) =>
      var (s, t) := ClaimMessage(w.s, id, instance);
      w.(s := s, pub := AfterTrigger(t))
    case WatchdogTick =>
      (match WatchdogVerdict(cfg, w.s, w.now)
       case Some(stop) => Fail(w, stop)
       case None => w)
    case EnterClaim(l) =>
      (match ClaimTarget(w.s)
       case None => Enter(w, l, Idle)
       case Some(i) =>
         Enter(w, l, Requesting(i, ClaimIdFor(w.s.drops[i], cfg.userId, cfg.campaign.id)))
           .(log := w.log + [Asked(i)]))
    case Reply(l, reply) =>
      var i := PhaseOf(w, l).i;
      var v := w.(s := Settle(w.s, i, PhaseOf(w, l).claimId, reply));
      (match Judge(reply)
       case Granted => Enter(v, l, Confirming(i)).(log := w.log + [Got(i)])
       case Refused => Enter(v, l, Idle)
       case NotLinked => Enter(v, l, Idle)
       case ClaimError => StopWith(v, l, ClaimFailed))
    case Advanced(l) =>
      var v := w.(s := Advance(cfg, w.s, w.now));
      if v.s.active.Some? then Enter(v, l, Idle) else StopWith(v, l, Complete)
    case Abandon(l) => StopWith(w, l, ContextDone)
    case Quit(l) => Enter(w, l, Stopped)
    case Cancel => w.(cancelled := true)
    case Elapse(dt) => w.(now := w.now + dt)
  }

  // A session that found a drop to start with; without a PubSub client that loop never runs.
  ghost predicate Starts(cfg: Config, w: World, pubsub: bool) {
    && w.s == Begin(cfg, w.s.drops, w.now)
    && w.s.active.Some?
    && w.recon == Idle && w.pub == (if pubsub then Idle else Stopped)
    && !w.cancelled && w.outcome == None && w.log == [] && w.lastTick == None && w.ticks == 0
  }

  ghost function Exec(cfg: Config, w: World, es: seq<Event>): Option<World> {
    if es == [] then Some(w)
    else
      match Exec(cfg, w, es[..|es| - 1])
      case None => None
      case Some(v) => if Enabled(v, es[|es| - 1]) then Some(Step(cfg, v, es[|es| - 1])) else None
  }

  // One more event, which leads to v.
  lemma Then(cfg: Config, w0: World, es: seq<Event>, w: World, e: Event, v: World) returns (more: seq<Event>)
    requires Exec(cfg, w0, es) == Some(w) && Enabled(w, e) && Step(cfg, w, e) == v
    ensures Exec(cfg, w0, more) == Some(v)
  {
    more := es + [e];
    assert more[..|es|] == es;
  }

  lemma TickPasses(cfg: Config, w: World)
    requires Enabled(w, Tick) && TickVerdict(cfg, w.s, w.now) == None
    ensures Step(cfg, w, Tick) == w.(lastTick := Some(w.now), ticks := w.ticks + 1, recon := Fetching)
  {
  }

  // ------------------------------------------------------------------
  // Drops along a run
  // ------------------------------------------------------------------

  // The drop differs from d0 in minutes and claim state only, and is still claimed if d0 was.
  predicate SameDrop(d0: TimedDrop, d: TimedDrop) {
    && d == d0.(claimId := d.claimId, isClaimed := d.isClaimed, current := d.current)
    && (d0.isClaimed ==> d.isClaimed)
  }

  predicate Grown(ds0: seq<TimedDrop>, ds: seq<TimedDrop>) {
    |ds0| == |ds| && forall i :: 0 <= i < |ds| ==> SameDrop(ds0[i], ds[i])
  }

  lemma GrownKeepsMet(ds0: seq<TimedDrop>, ds: seq<TimedDrop>, d0: TimedDrop, d: TimedDrop)
    requires Grown(ds0, ds) && SameDrop(d0, d) && PreconditionsMet(ds0, d0)
    ensures PreconditionsMet(ds, d)
  {
    forall pid | pid in d.preconditions
      ensures ClaimedId(ds, pid)
    {
      assert ClaimedId(ds0, pid);
      var k :| 0 <= k < |ds0| && ds0[k].isClaimed && ds0[k].id == pid;
      assert SameDrop(ds0[k], ds[k]);
    }
  }

  lemma ReportGrows(s: State, id: string, instance: string, minutes: int, now: int)
    requires ActiveInRange(s)
    ensures Grown(s.drops, Report(s, id, instance, minutes, now).0.drops)
  {
  }

  lemma MessageGrows(s: State, id: string, instance: string)
    requires ActiveInRange(s)
    ensures Grown(s.drops, ClaimMessage(s, id, instance).0.drops)
  {
  }

  lemma SettleGrows(s: State, i: nat, claimId: string, reply: ClaimReply)
    requires i < |s.drops|
    ensures Grown(s.drops, Settle(s, i, claimId, reply).drops)
  {
  }

  // No step changes anything of a drop but its minutes and claim state, and no claim is taken back.
  lemma StepGrows(cfg: Config, w: World, e: Event)
    requires Enabled(w, e)
    ensures Grown(w.s.drops, Step(cfg, w, e).s.drops)
  {
    var ds := Step(cfg, w, e).s.drops;
    match e
    case Fetched(Some(r)) => ReportGrows(w.s, r.0, "", r.1, w.now);
    case ProgressMsg(id, instance, minutes) => ReportGrows(w.s, id, instance, minutes, w.now);
    case ClaimMsg(id, instance) => MessageGrows(w.s, id, instance);
    case Reply(l, reply) => SettleGrows(w.s, PhaseOf(w, l).i, PhaseOf(w, l).claimId, reply);
    case _ => assert ds == w.s.drops;
  }

  // ------------------------------------------------------------------
  // Safety
  // ------------------------------------------------------------------

  ghost predicate GoodActive(cfg: Config, drops: seq<TimedDrop>, i: nat) {
    i < |drops| && drops[i].required > 0 && PreconditionsMet(drops, drops[i]) && !ExcludedByKeyword(drops[i], cfg.matches)
  }

  // What a loop inside claimAndAdvance may rely on while it holds claimMu.
  predicate ClaimOk(s: State, x: Phase) {
    match x
    case Requesting(i, _) => s.active == Some(i) && i < |s.drops| && !s.drops[i].isClaimed
    case Confirming(i) => s.active == Some(i) && i < |s.drops| && s.drops[i].isClaimed
    case _ => true
  }

  ghost predicate LogOk(w: World) {
    && (forall k :: 0 <= k < |w.log| && w.log[k].Got? ==>
          w.log[k].i < |w.s.drops| && w.s.drops[w.log[k].i].isClaimed)
    && (forall j, k :: 0 <= j < k < |w.log| && w.log[j].Got? ==> w.log[k] != Asked(w.log[j].i))
  }

  ghost predicate SafeInv(cfg: Config, w: World) {
    && InRange(w)
    && (w.s.active.Some? ==> GoodActive(cfg, w.s.drops, w.s.active.value))
    && ClaimsOk(w)
    && LogOk(w)
  }

  lemma GoodStays(cfg: Config, ds0: seq<TimedDrop>, ds: seq<TimedDrop>, i: nat)
    requires Grown(ds0, ds) && GoodActive(cfg, ds0, i)
    ensures GoodActive(cfg, ds, i)
  {
    assert SameDrop(ds0[i], ds[i]);
    GrownKeepsMet(ds0, ds, ds0[i], ds[i]);
  }

  lemma NextIsGood(cfg: Config, drops: seq<TimedDrop>, now: int)
    ensures var r := NextEarnable(cfg, drops, now);
            r.Some? ==> GoodActive(cfg, drops, r.value) && !drops[r.value].isClaimed
  {
    var c := cfg.campaign.(drops := drops);
    var r := NextEarnable(cfg, drops, now);
    if r.Some? {
      assert Earnable(c, r.value, now, Some(cfg.ch), cfg.matches);
    }
  }

  // The events of claimAndAdvance.
  predicate ClaimEvent(e: Event) { e.EnterClaim? || e.Reply? || e.Advanced? || e.Abandon? }

  lemma RangeStep(cfg: Config, w: World, e: Event)
    requires Enabled(w, e)
    ensures InRange(Step(cfg, w, e))
  {
    if ClaimEvent(e) {
      RangeClaim(cfg, w, e);
    } else {
      RangeOther(cfg, w, e);
    }
  }

  lemma RangeClaim(cfg: Config, w: World, e: Event)
    requires Enabled(w, e) && ClaimEvent(e)
    ensures InRange(Step(cfg, w, e))
  {
  }

  lemma RangeOther(cfg: Config, w: World, e: Event)
    requires Enabled(w, e) && !ClaimEvent(e)
    ensures InRange(Step(cfg, w, e))
  {
  }

  // The active drop changes at the end of claimAndAdvance only.
  lemma ActiveKept(cfg: Config, w: World, e: Event)
    requires Enabled(w, e)
    ensures var v := Step(cfg, w, e);
            if e.Advanced? then v.s.active == NextEarnable(cfg, w.s.drops, w.now) && v.s.drops == w.s.drops
            else v.s.active == w.s.active
  {
  }

  lemma ActiveStep(cfg: Config, w: World, e: Event)
    requires SafeInv(cfg, w) && Enabled(w, e)
    ensures var v := Step(cfg, w, e);
            v.s.active.Some? ==> GoodActive(cfg, v.s.drops, v.s.active.value)
  {
    ActiveKept(cfg, w, e);
    if e.Advanced? {
      NextIsGood(cfg, w.s.drops, w.now);
    } else if w.s.active.Some? {
      StepGrows(cfg, w, e);
      GoodStays(cfg, w.s.drops, Step(cfg, w, e).s.drops, w.s.active.value);
    }
  }

  ghost predicate ClaimsOk(w: World) {
    ClaimOk(w.s, w.recon) && ClaimOk(w.s, w.pub) && !(InClaim(w.recon) && InClaim(w.pub))
  }

  lemma ClaimStep(cfg: Config, w: World, e: Event)
    requires SafeInv(cfg, w) && Enabled(w, e)
    ensures ClaimsOk(Step(cfg, w, e))
  {
    if ClaimEvent(e) {
      ClaimStepClaim(cfg, w, e);
    } else {
      ClaimStepOther(cfg, w, e);
    }
  }

  lemma ClaimStepClaim(cfg: Config, w: World, e: Event)
    requires InRange(w) && ClaimsOk(w) && Enabled(w, e) && ClaimEvent(e)
    ensures ClaimsOk(Step(cfg, w, e))
  {
  }

  lemma ClaimStepOther(cfg: Config, w: World, e: Event)
    requires InRange(w) && ClaimsOk(w) && Enabled(w, e) && !ClaimEvent(e)
    ensures ClaimsOk(Step(cfg, w, e))
  {
  }

  lemma LogStep(cfg: Config, w: World, e: Event)
    requires SafeInv(cfg, w) && Enabled(w, e)
    ensures LogOk(Step(cfg, w, e))
  {
    StepGrows(cfg, w, e);
    LogGrows(cfg, w, e);
    var v := Step(cfg, w, e);
    forall k | 0 <= k < |w.log| && w.log[k].Got?
      ensures w.log[k].i < |v.s.drops| && v.s.drops[w.log[k].i].isClaimed
    {
      assert SameDrop(w.s.drops[w.log[k].i], v.s.drops[w.log[k].i]);
    }
  }

  // A step logs at most one entry: a request for an unclaimed drop, or a grant of a drop now claimed.
  lemma LogGrows(cfg: Config, w: World, e: Event)
    requires ClaimsOk(w) && Enabled(w, e)
    ensures var v := Step(cfg, w, e);
            || v.log == w.log
            || (exists i :: 0 <= i < |w.s.drops| && v.log == w.log + [Asked(i)] && !w.s.drops[i].isClaimed)
            || (exists i :: 0 <= i < |v.s.drops| && v.log == w.log + [Got(i)] && v.s.drops[i].isClaimed)
  {
    if e.EnterClaim? || e.Reply? {
      LogGrowsClaim(cfg, w, e);
    }
  }

  lemma LogGrowsClaim(cfg: Config, w: World, e: Event)
    requires ClaimsOk(w) && Enabled(w, e) && (e.EnterClaim? || e.Reply?)
    ensures var v := Step(cfg, w, e);
            || v.log == w.log
            || (exists i :: 0 <= i < |w.s.drops| && v.log == w.log + [Asked(i)] && !w.s.drops[i].isClaimed)
            || (exists i :: 0 <= i < |v.s.drops| && v.log == w.log + [Got(i)] && v.s.drops[i].isClaimed)
  {
    var v := Step(cfg, w, e);
    if e.EnterClaim? && ClaimTarget(w.s).Some? {
      assert v.log == w.log + [Asked(ClaimTarget(w.s).value)];
    }
    if e.Reply? && Judge(e.reply) == Granted {
      assert v.log == w.log + [Got(PhaseOf(w, e.l).i)];
    }
  }

  lemma {:induction false} SessionSafety(cfg: Config, w0: World, pubsub: bool, es: seq<Event>, w: World)
    requires Starts(cfg, w0, pubsub) && Exec(cfg, w0, es) == Some(w)
    ensures SafeInv(cfg, w) && Grown(w0.s.drops, w.s.drops)
  {
    if es == [] {
      NextIsGood(cfg, w0.s.drops, w0.now);
    } else {
      var v := Exec(cfg, w0, es[..|es| - 1]).value;
      SessionSafety(cfg, w0, pubsub, es[..|es| - 1], v);
      RangeStep(cfg, v, es[|es| - 1]);
      ActiveStep(cfg, v, es[|es| - 1]);
      ClaimStep(cfg, v, es[|es| - 1]);
      LogStep(cfg, v, es[|es| - 1]);
      StepGrows(cfg, v, es[|es| - 1]);
    }
  }

  // From w to v no drop but the active one changes, and none but it is logged.
  predicate ActiveOnly(w: World, v: World) {
    && |v.s.drops| == |w.s.drops|
    && (forall k :: 0 <= k < |w.s.drops| && w.s.active != Some(k) ==> v.s.drops[k] == w.s.drops[k])
    && w.log <= v.log
    && (forall k :: |w.log| <= k < |v.log| ==> w.s.active == Some(v.log[k].i))
  }

  // Only the active drop can be claimed, and only it can be asked for.
  lemma OnlyActiveTouched(cfg: Config, w: World, e: Event)
    requires SafeInv(cfg, w) && Enabled(w, e)
    ensures ActiveOnly(w, Step(cfg, w, e))
  {
    if ClaimEvent(e) {
      TouchedClaim(cfg, w, e);
    } else {
      TouchedOther(cfg, w, e);
    }
  }

  lemma TouchedClaim(cfg: Config, w: World, e: Event)
    requires ClaimsOk(w) && Enabled(w, e) && ClaimEvent(e)
    ensures ActiveOnly(w, Step(cfg, w, e))
  {
  }

  lemma TouchedOther(cfg: Config, w: World, e: Event)
    requires Enabled(w, e) && !ClaimEvent(e)
    ensures ActiveOnly(w, Step(cfg, w, e))
  {
  }

  // Once no drop is active none becomes active, none changes and nothing is requested.
  lemma StaysOver(cfg: Config, w: World, e: Event)
    requires SafeInv(cfg, w) && Enabled(w, e) && w.s.active == None
    ensures var v := Step(cfg, w, e);
            v.s.active == None && v.s.drops == w.s.drops && v.log == w.log
  {
    OnlyActiveTouched(cfg, w, e);
    ActiveKept(cfg, w, e);
    var v := Step(cfg, w, e);
    assert v.s.drops == w.s.drops;
    assert |v.log| <= |w.log|;
  }

  lemma StaysOverInRuns(cfg: Config, w0: World, pubsub: bool, es: seq<Event>, w: World, e: Event)
    requires Starts(cfg, w0, pubsub) && Exec(cfg, w0, es) == Some(w) && Enabled(w, e) && w.s.active == None
    ensures var v := Step(cfg, w, e);
            v.s.active == None && v.s.drops == w.s.drops && v.log == w.log
  {
    SessionSafety(cfg, w0, pubsub, es, w);
    StaysOver(cfg, w, e);
  }

  // The step that reports completion is an advance that finds no earnable drop.
  lemma CompletionIsHonest(cfg: Config, w: World, e: Event)
    requires Enabled(w, e) && w.outcome != Some(Complete) && Step(cfg, w, e).outcome == Some(Complete)
    ensures var v := Step(cfg, w, e);
            v.s.active == None &&
            !CanEarn(cfg.campaign.(drops := v.s.drops), v.now, Some(cfg.ch), cfg.matches)
  {
    assert e.Advanced?;
  }

  // Step k of the run completes the session and leads to v, where nothing is active
  // and no drop can be earned.
  ghost predicate CompletedAt(cfg: Config, w0: World, es: seq<Event>, k: nat, v: World) {
    && k < |es| && Exec(cfg, w0, es[..k]).Some? && Exec(cfg, w0, es[..k]).value.outcome != Some(Complete)
    && Exec(cfg, w0, es[..k + 1]) == Some(v) && v.outcome == Some(Complete)
    && v.s.active == None
    && !CanEarn(cfg.campaign.(drops := v.s.drops), v.now, Some(cfg.ch), cfg.matches)
  }

  lemma CompletedAtStays(cfg: Config, w0: World, es: seq<Event>, n: nat, k: nat, v: World)
    requires n <= |es| && CompletedAt(cfg, w0, es[..n], k, v)
    ensures CompletedAt(cfg, w0, es, k, v)
  {
    TakeTake(es, n, k);
    TakeTake(es, n, k + 1);
  }

  lemma CompletesLast(cfg: Config, w0: World, es: seq<Event>, w: World)
    requires es != [] && Exec(cfg, w0, es) == Some(w) && w.outcome == Some(Complete)
    requires Exec(cfg, w0, es[..|es| - 1]).value.outcome != Some(Complete)
    ensures CompletedAt(cfg, w0, es, |es| - 1, w)
  {
    CompletionIsHonest(cfg, Exec(cfg, w0, es[..|es| - 1]).value, es[|es| - 1]);
    assert es[..|es|] == es;
  }

  // A run that ends as complete was completed by one of its steps, at an instant when
  // no drop could be earned. No drop is active from then on, none changes and
  // nothing more is requested.
  lemma {:induction false} CompletedRuns(cfg: Config, w0: World, pubsub: bool, es: seq<Event>, w: World)
    returns (k: nat, v: World)
    requires Starts(cfg, w0, pubsub) && Exec(cfg, w0, es) == Some(w) && w.outcome == Some(Complete)
    ensures CompletedAt(cfg, w0, es, k, v)
    ensures w.s.active == None && w.s.drops == v.s.drops && w.log == v.log
  {
    assert es != [];
    var n := |es| - 1;
    var front := es[..n];
    var u := Exec(cfg, w0, front).value;
    if u.outcome == Some(Complete) {
      k, v := CompletedRuns(cfg, w0, pubsub, front, u);
      CompletedAtStays(cfg, w0, es, n, k, v);
      StaysOverInRuns(cfg, w0, pubsub, front, u, es[n]);
    } else {
      CompletesLast(cfg, w0, es, w);
      k, v := n, w;
    }
  }

  // ------------------------------------------------------------------
  // Exclusion prunes whatever depends on it
  // ------------------------------------------------------------------

  // No drop of B is claimed, and each is excluded or waits for a precondition
  // that is in B itself or is no drop at all. Cycles are such sets.
  ghost predicate Blocked(cfg: Config, drops: seq<TimedDrop>, b: set<string>) {
    forall k :: 0 <= k < |drops| && drops[k].id in b ==>
      !drops[k].isClaimed &&
      (ExcludedByKeyword(drops[k], cfg.matches) || Waits(drops, drops[k], b))
  }

  ghost predicate Waits(drops: seq<TimedDrop>, d: TimedDrop, b: set<string>) {
    exists pid :: pid in d.preconditions && (pid in b || forall j :: 0 <= j < |drops| ==> drops[j].id != pid)
  }

  lemma BlockedNotEarnable(cfg: Config, drops: seq<TimedDrop>, b: set<string>, k: nat)
    requires Blocked(cfg, drops, b) && k < |drops| && drops[k].id in b
    ensures !BaseEarn(drops, drops[k], cfg.matches)
  {
    if !ExcludedByKeyword(drops[k], cfg.matches) {
      var pid :| pid in drops[k].preconditions && (pid in b || forall j :: 0 <= j < |drops| ==> drops[j].id != pid);
      assert !ClaimedId(drops, pid);
    }
  }

  // Blocked is kept as long as nothing in B is claimed.
  lemma BlockedStays(cfg: Config, ds0: seq<TimedDrop>, ds: seq<TimedDrop>, b: set<string>)
    requires Blocked(cfg, ds0, b) && Grown(ds0, ds)
    requires forall k :: 0 <= k < |ds| && ds[k].id in b ==> !ds[k].isClaimed
    ensures Blocked(cfg, ds, b)
  {
    forall k | 0 <= k < |ds| && ds[k].id in b
      ensures ExcludedByKeyword(ds[k], cfg.matches) || Waits(ds, ds[k], b)
    {
      assert SameDrop(ds0[k], ds[k]);
      if Waits(ds0, ds0[k], b) {
        var pid :| pid in ds0[k].preconditions && (pid in b || forall j :: 0 <= j < |ds0| ==> ds0[j].id != pid);
        assert forall j :: 0 <= j < |ds| ==> SameDrop(ds0[j], ds[j]);
        assert pid in ds[k].preconditions;
      }
    }
  }

  ghost predicate PruneInv(cfg: Config, w: World, b: set<string>) {
    && InRange(w)
    && Blocked(cfg, w.s.drops, b)
    && (w.s.active.Some? ==> w.s.drops[w.s.active.value].id !in b)
    && (forall k :: 0 <= k < |w.log| ==> w.log[k].i < |w.s.drops| && w.s.drops[w.log[k].i].id !in b)
  }

  lemma PruneStep(cfg: Config, w: World, e: Event, b: set<string>)
    requires SafeInv(cfg, w) && PruneInv(cfg, w, b) && Enabled(w, e)
    ensures PruneInv(cfg, Step(cfg, w, e), b)
  {
    var v := Step(cfg, w, e);
    StepGrows(cfg, w, e);
    RangeStep(cfg, w, e);
    ActiveKept(cfg, w, e);
    OnlyActiveTouched(cfg, w, e);
    assert forall k :: 0 <= k < |v.s.drops| ==> SameDrop(w.s.drops[k], v.s.drops[k]);
    BlockedStays(cfg, w.s.drops, v.s.drops, b);
    if e.Advanced? && v.s.active.Some? {
      NextNotBlocked(cfg, w.s.drops, w.now, b);
    }
  }

  lemma NextNotBlocked(cfg: Config, drops: seq<TimedDrop>, now: int, b: set<string>)
    requires Blocked(cfg, drops, b) && NextEarnable(cfg, drops, now).Some?
    ensures drops[NextEarnable(cfg, drops, now).value].id !in b
  {
    var i := NextEarnable(cfg, drops, now).value;
    assert Earnable(cfg.campaign.(drops := drops), i, now, Some(cfg.ch), cfg.matches);
    if drops[i].id in b {
      BlockedNotEarnable(cfg, drops, b, i);
    }
  }

  // In every run no drop of a blocked set becomes active, is requested or is claimed.
  lemma {:induction false} ExclusionPrunes(cfg: Config, w0: World, pubsub: bool, es: seq<Event>, w: World, b: set<string>)
    requires Starts(cfg, w0, pubsub) && Exec(cfg, w0, es) == Some(w)
    requires Blocked(cfg, w0.s.drops, b)
    ensures PruneInv(cfg, w, b)
  {
    if es == [] {
      NextNotBlocked(cfg, w0.s.drops, w0.now, b);
    } else {
      var v := Exec(cfg, w0, es[..|es| - 1]).value;
      SessionSafety(cfg, w0, pubsub, es[..|es| - 1], v);
      ExclusionPrunes(cfg, w0, pubsub, es[..|es| - 1], v, b);
      PruneStep(cfg, v, es[|es| - 1], b);
    }
  }

  // A drop whose preconditions were claimed before the run stays unlocked in every
  // run, whatever the exclude list says of those preconditions: only the exclusion
  // of the drop itself counts.
  lemma ClaimedBeforeStillUnlocks(cfg: Config, w0: World, pubsub: bool, es: seq<Event>, w: World, i: nat)
    requires Starts(cfg, w0, pubsub) && Exec(cfg, w0, es) == Some(w)
    requires i < |w0.s.drops| && PreconditionsMet(w0.s.drops, w0.s.drops[i])
    ensures i < |w.s.drops| && SameDrop(w0.s.drops[i], w.s.drops[i])
    ensures var d := w.s.drops[i];
            BaseEarn(w.s.drops, d, cfg.matches) <==>
            !d.isClaimed && d.required > 0 && !ExcludedByKeyword(d, cfg.matches) &&
            (|d.benefits| > 0 || InChain(w.s.drops, d.id))
  {
    SessionSafety(cfg, w0, pubsub, es, w);
    GrownKeepsMet(w0.s.drops, w.s.drops, w0.s.drops[i], w.s.drops[i]);
  }
}
