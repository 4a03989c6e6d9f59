// How long a session can keep ticking, and what the bound rests on
// (watch_session.go:258-336, 475-552).
module SessionTermination {
  import opened Common
  import opened Inventory
  import opened Claiming
  import opened Session
  import opened SessionRuns

  // ------------------------------------------------------------------
  // The potential: what can still reset the no-progress clock
  // ------------------------------------------------------------------

  function TotalRemaining(ds: seq<TimedDrop>): nat {
    if ds == [] then 0 else ds[0].Remaining() + TotalRemaining(ds[1..])
  }

  function Unclaimed(ds: seq<TimedDrop>): nat {
    Count(ds, (d: TimedDrop) => !d.isClaimed)
  }

  // Minutes left to watch and claims left to make.
  function Budget(ds: seq<TimedDrop>): nat {
    TotalRemaining(ds) + Unclaimed(ds)
  }

  function Confirmations(x: Phase): nat { if x.Confirming? then 1 else 0 }

  // The budget, and the claims granted but not yet followed by an advance.
  function Potential(w: World): nat {
    Budget(w.s.drops) + Confirmations(w.recon) + Confirmations(w.pub)
  }

  predicate WithinRequired(ds: seq<TimedDrop>) {
    forall i :: 0 <= i < |ds| ==> ds[i].current <= ds[i].required
  }

  lemma {:induction false} RemainingUpdate(ds: seq<TimedDrop>, i: nat, d: TimedDrop)
    requires i < |ds|
    ensures TotalRemaining(ds[i := d]) == TotalRemaining(ds) - ds[i].Remaining() + d.Remaining()
  {
    if i == 0 {
      assert ds[i := d][1..] == ds[1..];
    } else {
      assert ds[i := d][1..] == ds[1..][i - 1 := d];
      RemainingUpdate(ds[1..], i - 1, d);
    }
  }

  // A report about the active drop is not below its local minutes.
  predicate ReportOk(s: State, id: string, minutes: int)
    requires ActiveInRange(s)
  {
    s.active.Some? && s.drops[s.active.value].id == id ==> s.drops[s.active.value].current <= minutes
  }

  ghost predicate Faithful(w: World, e: Event)
    requires InRange(w)
  {
    match e
    case Fetched(Some(r)) => ReportOk(w.s, r.0, r.1)
    case ProgressMsg(id, _, minutes) => ReportOk(w.s, id, minutes)
    case _ => true
  }

  // Every report of the run is faithful at the moment it arrives.
  ghost predicate FaithfulRun(cfg: Config, w0: World, es: seq<Event>) {
    es == [] ||
    var front := es[..|es| - 1];
    FaithfulRun(cfg, w0, front) &&
    (Exec(cfg, w0, front).Some? && Enabled(Exec(cfg, w0, front).value, es[|es| - 1]) ==>
       Faithful(Exec(cfg, w0, front).value, es[|es| - 1]))
  }

  lemma ReportPotential(s: State, id: string, instance: string, minutes: int, now: int)
    requires ActiveInRange(s) && WithinRequired(s.drops) && ReportOk(s, id, minutes)
    ensures var t := Report(s, id, instance, minutes, now).0;
            && WithinRequired(t.drops)
            && Unclaimed(t.drops) == Unclaimed(s.drops)
            && TotalRemaining(t.drops) <= TotalRemaining(s.drops)
            && (t.lastProgressAt == s.lastProgressAt ||
                (t.lastProgressAt == now && TotalRemaining(t.drops) < TotalRemaining(s.drops)))
  {
    if s.active.Some? && s.drops[s.active.value].id == id {
      var i := s.active.value;
      var d := WithInstance(s.drops[i], instance).(current := Clamp(minutes, s.drops[i].required));
      RemainingUpdate(s.drops, i, d);
      CountUpdate(s.drops, i, d, (d: TimedDrop) => !d.isClaimed);
    }
  }

  lemma MessagePotential(s: State, id: string, instance: string)
    requires ActiveInRange(s) && WithinRequired(s.drops)
    ensures var t := ClaimMessage(s, id, instance).0;
            && WithinRequired(t.drops) && t.lastProgressAt == s.lastProgressAt
            && Unclaimed(t.drops) == Unclaimed(s.drops)
            && TotalRemaining(t.drops) == TotalRemaining(s.drops)
  {
    if s.active.Some? {
      var i := s.active.value;
      var d := WithInstance(s.drops[i], instance);
      RemainingUpdate(s.drops, i, d);
      CountUpdate(s.drops, i, d, (d: TimedDrop) => !d.isClaimed);
    }
  }

  lemma SettlePotential(s: State, i: nat, claimId: string, reply: ClaimReply)
    requires i < |s.drops| && WithinRequired(s.drops) && !s.drops[i].isClaimed
    ensures var t := Settle(s, i, claimId, reply);
            && WithinRequired(t.drops) && t.lastProgressAt == s.lastProgressAt
            && TotalRemaining(t.drops) <= TotalRemaining(s.drops)
            && Unclaimed(t.drops) == Unclaimed(s.drops) - (if Judge(reply) == Granted then 1 else 0)
  {
    var d := GrantedDrop(s.drops[i], claimId);
    RemainingUpdate(s.drops, i, d);
    CountUpdate(s.drops, i, d, (d: TimedDrop) => !d.isClaimed);
  }

  // What one step may do to the potential and the no-progress clock.
  predicate Pays(w: World, v: World) {
    && WithinRequired(v.s.drops)
    && Potential(v) <= Potential(w)
    && (v.s.lastProgressAt == w.s.lastProgressAt ||
        (v.s.lastProgressAt == w.now && Potential(v) < Potential(w)))
  }

  // No step raises the potential, and whatever resets the no-progress clock lowers it.
  lemma PotentialStep(cfg: Config, w: World, e: Event)
    requires SafeInv(cfg, w) && Enabled(w, e) && Faithful(w, e) && WithinRequired(w.s.drops)
    ensures Pays(w, Step(cfg, w, e))
  {
    match e
    case Fetched(r) => PotentialFetched(cfg, w, r);
    case ProgressMsg(id, instance, minutes) => ReportPotential(w.s, id, instance, minutes, w.now);
    case ClaimMsg(id, instance) => MessagePotential(w.s, id, instance);
    case Reply(l, reply) => PotentialReply(cfg, w, l, reply);
    case Advanced(l) => PotentialAdvanced(cfg, w, l);
    case _ => PotentialKept(cfg, w, e);
  }

  // The other events touch neither drops nor clock.
  lemma PotentialKept(cfg: Config, w: World, e: Event)
    requires Enabled(w, e) && WithinRequired(w.s.drops)
    requires !e.Fetched? && !e.ProgressMsg? && !e.ClaimMsg? && !e.Reply? && !e.Advanced?
    ensures Pays(w, Step(cfg, w, e))
  {
  }

  lemma PotentialFetched(cfg: Config, w: World, r: Option<(string, int)>)
    requires Enabled(w, Fetched(r)) && Faithful(w, Fetched(r)) && WithinRequired(w.s.drops)
    ensures Pays(w, Step(cfg, w, Fetched(r)))
  {
    if r.Some? {
      ReportPotential(w.s, r.value.0, "", r.value.1, w.now);
    }
  }

  lemma PotentialReply(cfg: Config, w: World, l: Loop, reply: ClaimReply)
    requires Enabled(w, Reply(l, reply)) && ClaimOk(w.s, PhaseOf(w, l)) && WithinRequired(w.s.drops)
    ensures Pays(w, Step(cfg, w, Reply(l, reply)))
  {
    SettlePotential(w.s, PhaseOf(w, l).i, PhaseOf(w, l).claimId, reply);
  }

  lemma PotentialAdvanced(cfg: Config, w: World, l: Loop)
    requires Enabled(w, Advanced(l)) && WithinRequired(w.s.drops)
    ensures Pays(w, Step(cfg, w, Advanced(l)))
  {
    ActiveKept(cfg, w, Advanced(l));
  }

  // ------------------------------------------------------------------
  // The bound
  // ------------------------------------------------------------------

  // The ticks that fit between the last progress and the last tick, at most one
  // per instant and at most the timeout.
  function Spent(cfg: Config, w: World): int {
    if w.lastTick.None? || w.lastTick.value < w.s.lastProgressAt then 0
    else if w.lastTick.value - w.s.lastProgressAt + 1 <= cfg.noProgressTimeout
    then w.lastTick.value - w.s.lastProgressAt + 1
    else cfg.noProgressTimeout
  }

  function Final(w: World): nat { if w.recon.Stopped? then 1 else 0 }

  ghost predicate TickInv(cfg: Config, budget: nat, w: World)
    requires cfg.noProgressTimeout >= 1
  {
    && WithinRequired(w.s.drops)
    && Potential(w) <= budget
    && w.s.lastProgressAt <= w.now
    && (w.lastTick.Some? ==> w.lastTick.value <= w.now)
    && w.ticks <= Times(budget - Potential(w), cfg.noProgressTimeout) + Spent(cfg, w) + Final(w)
  }

  // n timeouts.
  function Times(n: nat, t: nat): (r: nat)
  {
    if n == 0 then 0 else Times(n - 1, t) + t
  }

  lemma {:induction false} TimesGrows(a: nat, b: nat, t: nat)
    requires a <= b
    ensures Times(a, t) <= Times(b, t)
    ensures a < b ==> Times(a, t) + t <= Times(b, t)
  {
    if a < b {
      TimesGrows(a, b - 1, t);
    }
  }

  lemma {:induction false} TimesIsProduct(n: nat, t: nat)
    ensures Times(n, t) == n * t
  {
    if n > 0 {
      TimesIsProduct(n - 1, t);
      assert n * t == (n - 1) * t + t;
    }
  }

  lemma TickStep(cfg: Config, budget: nat, w: World, e: Event)
    requires cfg.noProgressTimeout >= 1
    requires SafeInv(cfg, w) && Enabled(w, e) && Faithful(w, e) && TickInv(cfg, budget, w)
    ensures TickInv(cfg, budget, Step(cfg, w, e))
  {
    PotentialStep(cfg, w, e);
    TickCount(cfg, w, e);
    TickBalance(cfg, budget, w, Step(cfg, w, e));
  }

  // What Pays and Counts say about w and v carries the invariant from w to v.
  lemma TickBalance(cfg: Config, budget: nat, w: World, v: World)
    requires cfg.noProgressTimeout >= 1 && TickInv(cfg, budget, w) && Pays(w, v) && Counts(cfg, w, v)
    ensures TickInv(cfg, budget, v)
  {
    TimesGrows(budget - Potential(w), budget - Potential(v), cfg.noProgressTimeout);
  }

  // What one step may do to the clock and the number of ticks.
  predicate Counts(cfg: Config, w: World, v: World) {
    && v.now >= w.now
    && (v.lastTick.Some? ==> v.lastTick.value <= v.now)
    && 0 <= Spent(cfg, v) && Spent(cfg, w) <= cfg.noProgressTimeout
    && Final(v) >= Final(w)
    && (v.s.lastProgressAt == w.s.lastProgressAt ==>
          v.ticks + Spent(cfg, w) + Final(w) <= w.ticks + Spent(cfg, v) + Final(v))
    && (v.s.lastProgressAt != w.s.lastProgressAt ==> v.ticks == w.ticks)
  }

  lemma TickCount(cfg: Config, w: World, e: Event)
    requires cfg.noProgressTimeout >= 1 && Enabled(w, e)
    requires w.s.lastProgressAt <= w.now && (w.lastTick.Some? ==> w.lastTick.value <= w.now)
    ensures Counts(cfg, w, Step(cfg, w, e))
  {
  }

  lemma {:induction false} TicksBoundedBy(cfg: Config, w0: World, pubsub: bool, es: seq<Event>, w: World)
    requires Starts(cfg, w0, pubsub) && Exec(cfg, w0, es) == Some(w)
    requires cfg.noProgressTimeout >= 1 && WithinRequired(w0.s.drops) && FaithfulRun(cfg, w0, es)
    ensures TickInv(cfg, Budget(w0.s.drops), w)
  {
    if es != [] {
      var front := es[..|es| - 1];
      var v := Exec(cfg, w0, front).value;
      TicksBoundedBy(cfg, w0, pubsub, front, v);
      SessionSafety(cfg, w0, pubsub, front, v);
      TickStep(cfg, Budget(w0.s.drops), v, es[|es| - 1]);
    }
  }

  // In every run with faithful reports the session processes at most
  // (minutes left + claims left + 1) * timeout + 1 reconcile ticks, however many
  // claims are refused, not linked or never answered.
  lemma SessionTerminates(cfg: Config, w0: World, pubsub: bool, es: seq<Event>, w: World)
    requires Starts(cfg, w0, pubsub) && Exec(cfg, w0, es) == Some(w)
    requires cfg.noProgressTimeout >= 1 && WithinRequired(w0.s.drops) && FaithfulRun(cfg, w0, es)
    ensures w.ticks <= Times(Budget(w0.s.drops) + 1, cfg.noProgressTimeout) + 1
  {
    TicksBoundedBy(cfg, w0, pubsub, es, w);
    ClosingBound(cfg, Budget(w0.s.drops), w);
  }

  lemma ClosingBound(cfg: Config, budget: nat, w: World)
    requires cfg.noProgressTimeout >= 1 && TickInv(cfg, budget, w)
    ensures w.ticks <= Times(budget + 1, cfg.noProgressTimeout) + 1
  {
    TimesGrows(budget - Potential(w), budget, cfg.noProgressTimeout);
  }

  // ------------------------------------------------------------------
  // Without faithful reports, or without a timeout, there is no bound
  // ------------------------------------------------------------------

  // The reconcile loop is about to tick, and drop i has just made progress.
  ghost predicate Swinging(w: World, i: nat, n: nat) {
    && InRange(w) && w.recon == Idle && !InClaim(w.pub) && !w.cancelled && w.ticks == n
    && w.s.active == Some(i) && !w.s.drops[i].isClaimed && w.s.drops[i].required >= 1
    && w.s.offlineSince == None && w.s.lastProgressAt == w.now
    && (w.lastTick.Some? ==> w.lastTick.value < w.now)
  }

  lemma StartSwings(cfg: Config, w: World, pubsub: bool)
    requires Starts(cfg, w, pubsub)
    ensures Swinging(w, w.s.active.value, 0)
  {
    NextIsGood(cfg, w.s.drops, w.now);
  }

  // A tick passes its checks, time moves on, and a report of other minutes than before arrives.
  lemma TickAndReport(cfg: Config, w0: World, es: seq<Event>, w: World, i: nat, n: nat)
    returns (more: seq<Event>, v: World)
    requires Exec(cfg, w0, es) == Some(w) && Swinging(w, i, n)
    ensures Exec(cfg, w0, more) == Some(v)
    ensures v.recon == Idle || v.recon == Triggered(i)
    ensures Swinging(v.(recon := Idle), i, n + 1)
  {
    TickPasses(cfg, w);
    var w1 := w.(lastTick := Some(w.now), ticks := n + 1, recon := Fetching);
    more := Then(cfg, w0, es, w, Tick, w1);
    var w2 := w1.(now := w.now + 1);
    more := Then(cfg, w0, more, w1, Elapse(1), w2);
    var minutes := if w.s.drops[i].current == 0 then 1 else 0;
    var (s, t) := Report(w2.s, w.s.drops[i].id, "", minutes, w2.now);
    v := w2.(s := s, recon := AfterTrigger(t));
    more := Then(cfg, w0, more, w2, Fetched(Some((w.s.drops[i].id, minutes))), v);
  }

  // The claim the report may have triggered is refused.
  lemma ClaimRefused(cfg: Config, w0: World, es: seq<Event>, w: World, i: nat, n: nat)
    returns (more: seq<Event>, v: World)
    requires Exec(cfg, w0, es) == Some(w) && w.recon == Triggered(i) && Swinging(w.(recon := Idle), i, n)
    ensures Exec(cfg, w0, more) == Some(v) && Swinging(v, i, n)
  {
    var id := ClaimIdFor(w.s.drops[i], cfg.userId, cfg.campaign.id);
    var w1 := w.(recon := Requesting(i, id), log := w.log + [Asked(i)]);
    more := Then(cfg, w0, es, w, EnterClaim(Reconcile), w1);
    v := w1.(recon := Idle);
    more := Then(cfg, w0, more, w1, Reply(Reconcile, NoReward), v);
  }

  // Whatever the session and its timeout, a server whose minutes go up and down
  // and which refuses claims keeps it ticking as long as it likes.
  lemma {:induction false} OscillationNeverEnds(cfg: Config, w0: World, pubsub: bool, n: nat)
    returns (es: seq<Event>, w: World)
    requires Starts(cfg, w0, pubsub)
    ensures Exec(cfg, w0, es) == Some(w) && Swinging(w, w0.s.active.value, n) && w.ticks == n
  {
    var i := w0.s.active.value;
    if n == 0 {
      StartSwings(cfg, w0, pubsub);
      es, w := [], w0;
    } else {
      es, w := OscillationNeverEnds(cfg, w0, pubsub, n - 1);
      es, w := TickAndReport(cfg, w0, es, w, i, n - 1);
      if w.recon.Triggered? {
        es, w := ClaimRefused(cfg, w0, es, w, i, n);
      }
    }
  }

  lemma FaithfulSnoc(cfg: Config, w: World, es: seq<Event>, v: World, e: Event)
    requires Exec(cfg, w, es) == Some(v) && Enabled(v, e)
    requires FaithfulRun(cfg, w, es) && Faithful(v, e)
    ensures Exec(cfg, w, es + [e]) == Some(Step(cfg, v, e)) && FaithfulRun(cfg, w, es + [e])
  {
    assert (es + [e])[..|es|] == es;
  }

  // A session that is online and about to tick.
  ghost predicate Quiet(w: World, n: nat) {
    && InRange(w) && w.recon == Idle && !w.cancelled && w.s.offlineSince == None && w.ticks == n
    && (w.lastTick.Some? ==> w.lastTick.value < w.now)
  }

  // One more event of a faithful run, which leads to v.
  lemma FaithfulThen(cfg: Config, w0: World, es: seq<Event>, w: World, e: Event, v: World) returns (more: seq<Event>)
    requires Exec(cfg, w0, es) == Some(w) && Enabled(w, e) && Step(cfg, w, e) == v
    requires FaithfulRun(cfg, w0, es) && Faithful(w, e)
    ensures Exec(cfg, w0, more) == Some(v) && FaithfulRun(cfg, w0, more)
  {
    FaithfulSnoc(cfg, w0, es, w, e);
    more := es + [e];
  }

  // A tick passes its checks and finds no report, and time moves on.
  lemma QuietRound(cfg: Config, w0: World, es: seq<Event>, w: World, n: nat) returns (more: seq<Event>, v: World)
    requires cfg.noProgressTimeout <= 0 && Quiet(w, n)
    requires Exec(cfg, w0, es) == Some(w) && FaithfulRun(cfg, w0, es)
    ensures Exec(cfg, w0, more) == Some(v) && FaithfulRun(cfg, w0, more) && Quiet(v, n + 1)
  {
    TickPasses(cfg, w);
    var w1 := w.(lastTick := Some(w.now), ticks := n + 1, recon := Fetching);
    more := FaithfulThen(cfg, w0, es, w, Tick, w1);
    var w2 := w1.(recon := Idle);
    more := FaithfulThen(cfg, w0, more, w1, Fetched(None), w2);
    v := w2.(now := w2.now + 1);
    more := FaithfulThen(cfg, w0, more, w2, Elapse(1), v);
  }

  // With the no-progress check switched off a session that nobody reports to ticks for ever.
  lemma {:induction false} NoTimeoutNeverEnds(cfg: Config, w0: World, pubsub: bool, n: nat)
    returns (es: seq<Event>, w: World)
    requires Starts(cfg, w0, pubsub) && cfg.noProgressTimeout <= 0
    ensures Exec(cfg, w0, es) == Some(w) && FaithfulRun(cfg, w0, es) && Quiet(w, n)
  {
    if n == 0 {
      es, w := [], w0;
    } else {
      es, w := NoTimeoutNeverEnds(cfg, w0, pubsub, n - 1);
      es, w := QuietRound(cfg, w0, es, w, n - 1);
    }
  }

  // No run with faithful reports processes more than b ticks.
  ghost predicate TicksAtMost(cfg: Config, w0: World, b: nat) {
    forall es: seq<Event>, w: World ::
      Exec(cfg, w0, es) == Some(w) && FaithfulRun(cfg, w0, es) ==> w.ticks <= b
  }

  // The faithful runs of a session have a common bound exactly when it has a timeout.
  lemma BoundedExactlyByTimeout(cfg: Config, w0: World, pubsub: bool)
    requires Starts(cfg, w0, pubsub) && WithinRequired(w0.s.drops)
    ensures (exists b: nat :: TicksAtMost(cfg, w0, b)) <==> cfg.noProgressTimeout >= 1
  {
    if cfg.noProgressTimeout >= 1 {
      var b := Times(Budget(w0.s.drops) + 1, cfg.noProgressTimeout) + 1;
      forall es: seq<Event>, w: World | Exec(cfg, w0, es) == Some(w) && FaithfulRun(cfg, w0, es)
        ensures w.ticks <= b
      {
        SessionTerminates(cfg, w0, pubsub, es, w);
      }
      assert TicksAtMost(cfg, w0, b);
    } else {
      forall b: nat
        ensures !TicksAtMost(cfg, w0, b)
      {
        var es, w := NoTimeoutNeverEnds(cfg, w0, pubsub, b + 1);
      }
    }
  }
}
