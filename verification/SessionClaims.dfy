// Which drop a trigger ends up claiming (watch_session.go:295-308, 328-332, 416-430,
// 475-552). A trigger and the claim are separate steps, and the claim reads the
// active drop afresh.
module SessionClaims {
  import opened Common
  import opened Inventory
  import opened Earnability
  import opened Claiming
  import opened Session
  import opened SessionRuns

  // Loop l is about to enter a claim, for another drop than the one that triggered it.
  ghost predicate Mistargets(w: World, l: Loop) {
    Enabled(w, EnterClaim(l)) && ClaimTarget(w.s).Some? && ClaimTarget(w.s).value != PhaseOf(w, l).i
  }

  // Some run gets there.
  ghost predicate CanMistarget(cfg: Config, w0: World) {
    exists es: seq<Event>, w: World, l: Loop :: Exec(cfg, w0, es) == Some(w) && Mistargets(w, l)
  }

  // The drops once the drop the session starts with is claimed.
  function AfterFirst(cfg: Config, w: World): seq<TimedDrop>
    requires ActiveInRange(w.s) && w.s.active.Some?
  {
    var i := w.s.active.value;
    w.s.drops[i := GrantedDrop(w.s.drops[i], ClaimIdFor(w.s.drops[i], cfg.userId, cfg.campaign.id))]
  }

  // With its first drop claimed the session finds another one to earn, now or later.
  ghost predicate HasSuccessor(cfg: Config, w: World)
    requires ActiveInRange(w.s) && w.s.active.Some?
  {
    exists t :: w.now <= t && NextEarnable(cfg, AfterFirst(cfg, w), t).Some?
  }

  // The same read off the campaign and the drops, without a search over time.
  lemma SuccessorByWindows(cfg: Config, w: World, pubsub: bool)
    requires Starts(cfg, w, pubsub)
    ensures var c := cfg.campaign.(drops := AfterFirst(cfg, w));
            HasSuccessor(cfg, w) <==>
            exists j :: 0 <= j < |c.drops| && BaseEarn(c.drops, c.drops[j], cfg.matches) &&
                        Opening(c, c.drops[j], w.now) < Min(c.endsAt, c.drops[j].endsAt)
  {
    var c := cfg.campaign.(drops := AfterFirst(cfg, w));
    NextIsEarnable(cfg, w.s.drops, w.now);
    if t :| w.now <= t && NextEarnable(cfg, c.drops, t).Some? {
      NextIsEarnable(cfg, c.drops, t);
      var j := NextEarnable(cfg, c.drops, t).value;
      assert BaseEarn(c.drops, c.drops[j], cfg.matches);
    }
    if j :| 0 <= j < |c.drops| && BaseEarn(c.drops, c.drops[j], cfg.matches) &&
            Opening(c, c.drops[j], w.now) < Min(c.endsAt, c.drops[j].endsAt) {
      var t := Opening(c, c.drops[j], w.now);
      assert Earnable(c, j, t, Some(cfg.ch), cfg.matches);
      assert NextEarnable(cfg, c.drops, t).Some?;
    }
  }

  lemma NextIsEarnable(cfg: Config, drops: seq<TimedDrop>, now: int)
    requires NextEarnable(cfg, drops, now).Some?
    ensures var i := NextEarnable(cfg, drops, now).value;
            Earnable(cfg.campaign.(drops := drops), i, now, Some(cfg.ch), cfg.matches)
  {
  }

  // ------------------------------------------------------------------
  // With a PubSub client and a successor: both loops trigger for the first drop
  // ------------------------------------------------------------------

  // Drop i with its minutes complete.
  function Full(drops: seq<TimedDrop>, i: nat): seq<TimedDrop>
    requires i < |drops|
  {
    drops[i := drops[i].(current := drops[i].required)]
  }

  // The reconcile loop sees drop i complete.
  lemma ReconcileTriggers(cfg: Config, w0: World) returns (es: seq<Event>, w: World)
    requires Starts(cfg, w0, true)
    ensures var i := w0.s.active.value;
            Exec(cfg, w0, es) == Some(w) &&
            w == w0.(s := w0.s.(drops := Full(w0.s.drops, i)), recon := Triggered(i),
                     lastTick := Some(w0.now), ticks := 1)
  {
    var i := w0.s.active.value;
    NextIsGood(cfg, w0.s.drops, w0.now);
    var d := w0.s.drops[i];
    TickPasses(cfg, w0);
    var w1 := w0.(lastTick := Some(w0.now), ticks := 1, recon := Fetching);
    es := Then(cfg, w0, [], w0, Tick, w1);
    w := w1.(s := w0.s.(drops := Full(w0.s.drops, i)), recon := Triggered(i));
    es := Then(cfg, w0, es, w1, Fetched(Some((d.id, d.required))), w);
  }

  // A claim message reaches the PubSub loop as well, which enters the claim first.
  lemma PubSubEnters(cfg: Config, w0: World, es: seq<Event>, w: World, i: nat) returns (more: seq<Event>, v: World)
    requires Exec(cfg, w0, es) == Some(w) && InRange(w)
    requires w.s.active == Some(i) && !w.s.drops[i].isClaimed && w.recon == Triggered(i) && w.pub == Idle
    ensures Exec(cfg, w0, more) == Some(v)
    ensures v == w.(pub := Requesting(i, ClaimIdFor(w.s.drops[i], cfg.userId, cfg.campaign.id)),
                    log := w.log + [Asked(i)])
  {
    MessageTriggers(cfg, w, i);
    var w1 := w.(pub := Triggered(i));
    more := Then(cfg, w0, es, w, ClaimMsg("", ""), w1);
    TriggerEnters(cfg, w1, i);
    v := w1.(pub := Requesting(i, ClaimIdFor(w.s.drops[i], cfg.userId, cfg.campaign.id)), log := w.log + [Asked(i)]);
    more := Then(cfg, w0, more, w1, EnterClaim(PubSub), v);
  }

  lemma MessageTriggers(cfg: Config, w: World, i: nat)
    requires InRange(w) && w.s.active == Some(i) && w.pub == Idle
    ensures Step(cfg, w, ClaimMsg("", "")) == w.(pub := Triggered(i))
  {
    assert w.s.drops[i := w.s.drops[i]] == w.s.drops;
  }

  lemma TriggerEnters(cfg: Config, w: World, i: nat)
    requires InRange(w) && w.s.active == Some(i) && !w.s.drops[i].isClaimed
    requires w.recon.Triggered? && w.pub == Triggered(i)
    ensures Enabled(w, EnterClaim(PubSub))
    ensures Step(cfg, w, EnterClaim(PubSub)) ==
            w.(pub := Requesting(i, ClaimIdFor(w.s.drops[i], cfg.userId, cfg.campaign.id)), log := w.log + [Asked(i)])
  {
  }

  // The claim is granted, and at instant t the session moves on to drop j.
  lemma PubSubAdvances(cfg: Config, w0: World, es: seq<Event>, w: World, i: nat, t: int, j: nat)
    returns (more: seq<Event>, v: World)
    requires Exec(cfg, w0, es) == Some(w) && InRange(w) && w.pub.Requesting? && w.pub.i == i
    requires w.now <= t
    requires NextEarnable(cfg, w.s.drops[i := GrantedDrop(w.s.drops[i], w.pub.claimId)], t) == Some(j)
    ensures Exec(cfg, w0, more) == Some(v)
    ensures v == w.(now := t, pub := Idle, log := w.log + [Got(i)],
                    s := w.s.(drops := w.s.drops[i := GrantedDrop(w.s.drops[i], w.pub.claimId)],
                              active := Some(j), lastProgressAt := t))
  {
    var after := w.s.drops[i := GrantedDrop(w.s.drops[i], w.pub.claimId)];
    var granted := Reply(PubSub, Reward(EligibleForAll, None));
    GrantArrives(cfg, w);
    var w1 := w.(s := w.s.(drops := after), pub := Confirming(i), log := w.log + [Got(i)]);
    more := Then(cfg, w0, es, w, granted, w1);
    var w2 := w1.(now := t);
    more := Then(cfg, w0, more, w1, Elapse(t - w.now), w2);
    MovesOn(cfg, w2, j);
    v := w2.(pub := Idle, s := w2.s.(active := Some(j), lastProgressAt := t));
    more := Then(cfg, w0, more, w2, Advanced(PubSub), v);
  }

  lemma GrantArrives(cfg: Config, w: World)
    requires InRange(w) && w.pub.Requesting?
    ensures var e := Reply(PubSub, Reward(EligibleForAll, None));
            Enabled(w, e) &&
            Step(cfg, w, e) == w.(s := w.s.(drops := w.s.drops[w.pub.i := GrantedDrop(w.s.drops[w.pub.i], w.pub.claimId)]),
                                  pub := Confirming(w.pub.i), log := w.log + [Got(w.pub.i)])
  {
  }

  lemma MovesOn(cfg: Config, w: World, j: nat)
    requires InRange(w) && w.pub.Confirming? && NextEarnable(cfg, w.s.drops, w.now) == Some(j)
    ensures Step(cfg, w, Advanced(PubSub)) == w.(pub := Idle, s := w.s.(active := Some(j), lastProgressAt := w.now))
  {
  }

  // In any session with a PubSub client and a successor the claim of the first
  // drop can be followed by a claim request for the successor, which has made no
  // progress: the second trigger waited for claimMu and then read the active drop afresh.
  lemma StaleTriggerClaimsSuccessor(cfg: Config, w0: World) returns (es: seq<Event>, w: World, j: nat)
    requires Starts(cfg, w0, true) && HasSuccessor(cfg, w0)
    ensures Exec(cfg, w0, es) == Some(w) && Mistargets(w, Reconcile)
    ensures var i := w0.s.active.value;
            && j != i && j < |w0.s.drops| == |w.s.drops| && w.s.drops[j] == w0.s.drops[j]
            && w.log == [Asked(i), Got(i)]
            && Step(cfg, w, EnterClaim(Reconcile)).log == [Asked(i), Got(i), Asked(j)]
  {
    var i := w0.s.active.value;
    NextIsGood(cfg, w0.s.drops, w0.now);
    var t :| w0.now <= t && NextEarnable(cfg, AfterFirst(cfg, w0), t).Some?;
    j := NextEarnable(cfg, AfterFirst(cfg, w0), t).value;
    NextIsGood(cfg, AfterFirst(cfg, w0), t);
    var es1, w1 := ReconcileTriggers(cfg, w0);
    var es2, w2 := PubSubEnters(cfg, w0, es1, w1, i);
    assert w2.s.drops[i := GrantedDrop(w2.s.drops[i], w2.pub.claimId)] == AfterFirst(cfg, w0);
    es, w := PubSubAdvances(cfg, w0, es2, w2, i, t, j);
    Retargets(cfg, w, i, j);
  }

  lemma Retargets(cfg: Config, w: World, i: nat, j: nat)
    requires InRange(w) && w.recon == Triggered(i) && !InClaim(w.pub)
    requires w.s.active == Some(j) && !w.s.drops[j].isClaimed && j != i
    ensures Mistargets(w, Reconcile) && Step(cfg, w, EnterClaim(Reconcile)).log == w.log + [Asked(j)]
  {
  }

  // ------------------------------------------------------------------
  // Without a PubSub client, or without a successor
  // ------------------------------------------------------------------

  predicate MinutesDone(s: State, i: nat) {
    s.active == Some(i) && i < |s.drops| && s.drops[i].required <= s.drops[i].current
  }

  // With the reconcile loop alone, what it is about to claim is the drop that
  // triggered it, and that drop's minutes are complete.
  ghost predicate SoloInv(w: World) {
    && w.pub.Stopped?
    && (w.recon.Triggered? ==> MinutesDone(w.s, w.recon.i))
    && (w.recon.Requesting? ==> MinutesDone(w.s, w.recon.i))
  }

  lemma {:induction false} SoloClaimsTheTrigger(cfg: Config, w0: World, es: seq<Event>, w: World)
    requires Starts(cfg, w0, false) && Exec(cfg, w0, es) == Some(w)
    ensures SoloInv(w)
  {
    if es != [] {
      var front := es[..|es| - 1];
      var v := Exec(cfg, w0, front).value;
      SoloClaimsTheTrigger(cfg, w0, front, v);
      SessionSafety(cfg, w0, false, front, v);
      SoloStep(cfg, v, es[|es| - 1]);
    }
  }

  lemma SoloStep(cfg: Config, w: World, e: Event)
    requires SafeInv(cfg, w) && SoloInv(w) && Enabled(w, e)
    ensures SoloInv(Step(cfg, w, e))
  {
  }

  // Minutes and claim IDs play no part in what can be earned.
  predicate Alike(ds0: seq<TimedDrop>, ds: seq<TimedDrop>) {
    |ds0| == |ds| && forall k :: 0 <= k < |ds| ==> ds[k] == ds0[k].(claimId := ds[k].claimId, current := ds[k].current)
  }

  lemma AlikeEarn(ds0: seq<TimedDrop>, ds: seq<TimedDrop>, k: nat, matches: Keywords)
    requires Alike(ds0, ds) && k < |ds| && BaseEarn(ds, ds[k], matches)
    ensures BaseEarn(ds0, ds0[k], matches)
  {
    forall pid | pid in ds0[k].preconditions
      ensures ClaimedId(ds0, pid)
    {
      assert ClaimedId(ds, pid);
      var q :| 0 <= q < |ds| && ds[q].isClaimed && ds[q].id == pid;
      assert ds0[q].isClaimed && ds0[q].id == pid;
    }
    if InChain(ds, ds[k].id) {
      var q :| 0 <= q < |ds| && !ds[q].isClaimed && ds[k].id in ds[q].preconditions;
      assert !ds0[q].isClaimed && ds0[k].id in ds0[q].preconditions;
    }
  }

  lemma AlikeNext(cfg: Config, ds0: seq<TimedDrop>, ds: seq<TimedDrop>, now: int)
    requires Alike(ds0, ds) && NextEarnable(cfg, ds, now).Some?
    ensures NextEarnable(cfg, ds0, now).Some?
  {
    NextIsEarnable(cfg, ds, now);
    var k := NextEarnable(cfg, ds, now).value;
    AlikeEarn(ds0, ds, k, cfg.matches);
    assert Earnable(cfg.campaign.(drops := ds0), k, now, Some(cfg.ch), cfg.matches);
  }

  predicate TriggerIs(x: Phase, i: nat) { x.Triggered? ==> x.i == i }

  // Only the first drop was ever active, triggered or touched.
  ghost predicate FirstOnly(w0: World, w: World, i: nat) {
    && w0.now <= w.now
    && (w.s.active == Some(i) || w.s.active == None)
    && TriggerIs(w.recon, i) && TriggerIs(w.pub, i)
    && |w.s.drops| == |w0.s.drops| && i < |w.s.drops| && SameDrop(w0.s.drops[i], w.s.drops[i])
    && forall k :: 0 <= k < |w.s.drops| && k != i ==> w.s.drops[k] == w0.s.drops[k]
  }

  // Where the session moves on, its drops are those after the first claim but for minutes and claim IDs.
  lemma AdvanceFindsNothing(cfg: Config, w0: World, w: World, i: nat, e: Event)
    requires ActiveInRange(w0.s) && w0.s.active == Some(i) && !HasSuccessor(cfg, w0)
    requires SafeInv(cfg, w) && FirstOnly(w0, w, i) && Enabled(w, e) && e.Advanced?
    ensures NextEarnable(cfg, w.s.drops, w.now) == None
  {
    assert w.s.drops[i].isClaimed;
    assert Alike(AfterFirst(cfg, w0), w.s.drops);
    if NextEarnable(cfg, w.s.drops, w.now).Some? {
      AlikeNext(cfg, AfterFirst(cfg, w0), w.s.drops, w.now);
      assert HasSuccessor(cfg, w0);
    }
  }

  lemma TriggersStep(cfg: Config, w: World, i: nat, e: Event)
    requires Enabled(w, e) && (w.s.active == Some(i) || w.s.active == None)
    requires TriggerIs(w.recon, i) && TriggerIs(w.pub, i)
    ensures var v := Step(cfg, w, e); w.now <= v.now && TriggerIs(v.recon, i) && TriggerIs(v.pub, i)
  {
  }

  lemma FirstOnlyStep(cfg: Config, w0: World, w: World, i: nat, e: Event)
    requires ActiveInRange(w0.s) && w0.s.active == Some(i) && !HasSuccessor(cfg, w0)
    requires SafeInv(cfg, w) && FirstOnly(w0, w, i) && Enabled(w, e)
    ensures FirstOnly(w0, Step(cfg, w, e), i)
  {
    TriggersStep(cfg, w, i, e);
    OnlyActiveTouched(cfg, w, e);
    StepGrows(cfg, w, e);
    ActiveKept(cfg, w, e);
    assert SameDrop(w.s.drops[i], Step(cfg, w, e).s.drops[i]);
    if e.Advanced? {
      AdvanceFindsNothing(cfg, w0, w, i, e);
    }
  }

  lemma {:induction false} WithoutSuccessor(cfg: Config, w0: World, pubsub: bool, es: seq<Event>, w: World)
    requires Starts(cfg, w0, pubsub) && Exec(cfg, w0, es) == Some(w)
    requires !HasSuccessor(cfg, w0)
    ensures FirstOnly(w0, w, w0.s.active.value)
  {
    if es != [] {
      var front := es[..|es| - 1];
      var v := Exec(cfg, w0, front).value;
      WithoutSuccessor(cfg, w0, pubsub, front, v);
      SessionSafety(cfg, w0, pubsub, front, v);
      FirstOnlyStep(cfg, w0, v, w0.s.active.value, es[|es| - 1]);
    }
  }

  // A claim request can go to another drop than the one that triggered it exactly
  // when the session has a PubSub client and a successor to its first drop.
  lemma MistargetExact(cfg: Config, w0: World, pubsub: bool)
    requires Starts(cfg, w0, pubsub)
    ensures CanMistarget(cfg, w0) <==> pubsub && HasSuccessor(cfg, w0)
  {
    if pubsub && HasSuccessor(cfg, w0) {
      var es, w, j := StaleTriggerClaimsSuccessor(cfg, w0);
    } else {
      forall es: seq<Event>, w: World, l: Loop | Exec(cfg, w0, es) == Some(w)
        ensures !Mistargets(w, l)
      {
        if pubsub {
          WithoutSuccessor(cfg, w0, pubsub, es, w);
        } else {
          SoloClaimsTheTrigger(cfg, w0, es, w);
        }
      }
    }
  }

  // ------------------------------------------------------------------
  // A session of two drops
  // ------------------------------------------------------------------

  function SampleDrop(id: string): TimedDrop {
    TimedDrop(id, id, [Benefit("b", "reward", DirectEntitlement)], 0, 1000, "", false, [], 10, 0)
  }

  function SampleConfig(): Config {
    var game := Game("1", "game");
    Config(Campaign("c", "campaign", game, true, 0, 1000, true, [], []),
           Channel("7", "login", false, true, Some(game)), NO_KEYWORDS, 120, 2, "42")
  }

  // After the first of two drops is claimed the second, with no minutes of its ten, is requested.
  lemma UnwatchedDropIsClaimed() returns (cfg: Config, w0: World, es: seq<Event>, w: World)
    ensures Starts(cfg, w0, true) && Exec(cfg, w0, es) == Some(w) && Enabled(w, EnterClaim(Reconcile))
    ensures Step(cfg, w, EnterClaim(Reconcile)).log == [Asked(0), Got(0), Asked(1)]
    ensures |w.s.drops| == 2 && w.s.drops[1].current == 0 && w.s.drops[1].required == 10
  {
    cfg := SampleConfig();
    var drops := [SampleDrop("a"), SampleDrop("b")];
    w0 := World(State(drops, Some(0), None, 0), 0, Idle, Idle, false, None, [], None, 0);
    assert Earnable(cfg.campaign.(drops := drops), 0, 0, Some(cfg.ch), cfg.matches);
    assert NextEarnable(cfg, drops, 0) == Some(0);
    var after := AfterFirst(cfg, w0);
    assert Earnable(cfg.campaign.(drops := after), 1, 0, Some(cfg.ch), cfg.matches);
    assert NextEarnable(cfg, after, 0).Some?;
    var j: nat;
    es, w, j := StaleTriggerClaimsSuccessor(cfg, w0);
    assert j == 1;
  }
}
