// What ends a session and what does not (watch_session.go:258-289, 350-360, 438-552).
module SessionStops {
  import opened Common
  import opened Inventory
  import opened Claiming
  import opened Session
  import opened SessionRuns

  // Why a step ends a session that was going on: the channel was down for the grace
  // time at a tick or a look of the watchdog, a tick found no progress for too long,
  // a claim request failed, an advance found nothing to earn, or a claim was broken
  // off while it waited for confirmation. Nothing else does.
  lemma WhyItStops(cfg: Config, w: World, e: Event)
    requires Enabled(w, e) && w.outcome == None
    ensures Step(cfg, w, e).outcome ==
            if (e.Tick? || e.WatchdogTick?) && DownFor(w.s, w.now, cfg.offlineGrace) then Some(ChannelOffline)
            else if e.Tick? && 0 < cfg.noProgressTimeout <= w.now - w.s.lastProgressAt then Some(NoProgress)
            else if e.Reply? && e.reply == Failed then Some(ClaimFailed)
            else if e.Advanced? && !CanEarn(cfg.campaign.(drops := w.s.drops), w.now, Some(cfg.ch), cfg.matches)
            then Some(Complete)
            else if e.Abandon? then Some(ContextDone)
            else None
  {
    if e.Tick? || e.WatchdogTick? {
      StopsExact(cfg, w.s, w.now);
    } else if e.Reply? {
      JudgeExact(e.reply);
    }
  }

  // The first reason stands, and whatever stops the session cancels the other loops.
  lemma OutcomeStays(cfg: Config, w: World, e: Event)
    requires Enabled(w, e)
    ensures var v := Step(cfg, w, e);
            && (w.outcome.Some? ==> v.outcome == w.outcome)
            && (w.cancelled ==> v.cancelled)
            && (w.outcome.None? && v.outcome.Some? ==> v.cancelled)
            && (!w.cancelled && v.cancelled ==> v.outcome.Some? || e.Cancel?)
  {
    if w.outcome == None {
      WhyItStops(cfg, w, e);
    }
  }

  // In every run a session that has an outcome is cancelled.
  lemma {:induction false} StoppedIsCancelled(cfg: Config, w0: World, pubsub: bool, es: seq<Event>, w: World)
    requires Starts(cfg, w0, pubsub) && Exec(cfg, w0, es) == Some(w)
    ensures w.outcome.Some? ==> w.cancelled
  {
    if es != [] {
      var v := Exec(cfg, w0, es[..|es| - 1]).value;
      StoppedIsCancelled(cfg, w0, pubsub, es[..|es| - 1], v);
      OutcomeStays(cfg, v, es[|es| - 1]);
    }
  }

  // A report or a claim message leaves the session as the code for it does, on
  // whichever loop it arrives, and takes that loop to a claim exactly if it asks for
  // one; an answer without a report changes nothing but that the loop is idle again.
  lemma MessagesArrive(cfg: Config, w: World, e: Event)
    requires Enabled(w, e)
    ensures var v := Step(cfg, w, e);
            match e
            case Fetched(None) => v == w.(recon := Idle)
            case Fetched(Some(r)) =>
              var (s, claim) := Report(w.s, r.0, "", r.1, w.now);
              v == w.(s := s, recon := v.recon) && GoesToClaim(v.recon, claim)
            case ProgressMsg(id, instance, minutes) =>
              var (s, claim) := Report(w.s, id, instance, minutes, w.now);
              v == w.(s := s, pub := v.pub) && GoesToClaim(v.pub, claim)
            case ClaimMsg(id, instance) =>
              var (s, claim) := ClaimMessage(w.s, id, instance);
              v == w.(s := s, pub := v.pub) && GoesToClaim(v.pub, claim)
            case _ => true
  {
  }

  predicate GoesToClaim(x: Phase, claim: Option<nat>) {
    match claim
    case Some(i) => x == Triggered(i)
    case None => x == Idle
  }

  lemma CancelledStep(cfg: Config, w: World, e: Event)
    requires Enabled(w, e)
    ensures var v := Step(cfg, w, e);
            && (w.cancelled ==> v.cancelled && v.ticks == w.ticks)
            && (v.recon.Stopped? && !w.recon.Stopped? ==> v.cancelled)
            && (v.pub.Stopped? && !w.pub.Stopped? ==> v.cancelled)
            && (w.recon.Stopped? ==> v.recon.Stopped?) && (w.pub.Stopped? ==> v.pub.Stopped?)
  {
  }

  // A cancelled session processes no more ticks, however long its run goes on.
  lemma {:induction false} NoTickAfterCancel(cfg: Config, w: World, es: seq<Event>, v: World)
    requires Exec(cfg, w, es) == Some(v) && w.cancelled
    ensures v.cancelled && v.ticks == w.ticks
  {
    if es != [] {
      var u := Exec(cfg, w, es[..|es| - 1]).value;
      NoTickAfterCancel(cfg, w, es[..|es| - 1], u);
      CancelledStep(cfg, u, es[|es| - 1]);
    }
  }

  // In every run a loop that was started stops only when the session is cancelled, and for good.
  lemma {:induction false} LoopsStopWithTheSession(cfg: Config, w0: World, pubsub: bool, es: seq<Event>, w: World)
    requires Starts(cfg, w0, pubsub) && Exec(cfg, w0, es) == Some(w)
    ensures w.recon.Stopped? || (pubsub && w.pub.Stopped?) ==> w.cancelled
    ensures !pubsub ==> w.pub.Stopped?
  {
    if es != [] {
      var v := Exec(cfg, w0, es[..|es| - 1]).value;
      LoopsStopWithTheSession(cfg, w0, pubsub, es[..|es| - 1], v);
      CancelledStep(cfg, v, es[|es| - 1]);
    }
  }

  // What a loop does with the answer to its claim request: a grant is confirmed, a
  // failed request ends the loop, and after a refusal or a missing link it goes on.
  lemma AfterReply(cfg: Config, w: World, l: Loop, reply: ClaimReply)
    requires Enabled(w, Reply(l, reply))
    ensures PhaseOf(Step(cfg, w, Reply(l, reply)), l) ==
            if Grants(reply) then Confirming(PhaseOf(w, l).i) else if reply == Failed then Stopped else Idle
  {
    JudgeExact(reply);
  }

  // The ID a request is sent under: the drop's own, or one made of user, campaign and drop.
  lemma RequestedUnder(cfg: Config, w: World, l: Loop)
    requires Enabled(w, EnterClaim(l))
    ensures var x := PhaseOf(Step(cfg, w, EnterClaim(l)), l);
            if w.s.active.Some? && !w.s.drops[w.s.active.value].isClaimed
            then
              var d := w.s.drops[w.s.active.value];
              x == Requesting(w.s.active.value,
                              if d.claimId != "" then d.claimId else cfg.userId + "#" + cfg.campaign.id + "#" + d.id)
            else x == Idle
  {
  }

  // Event m of the run is an UpMsg, between k and n.
  predicate UpBetween(es: seq<Event>, k: nat, n: nat) {
    exists m :: k < m < n && m < |es| && es[m].UpMsg?
  }

  predicate DownAt(es: seq<Event>, k: nat) {
    k < |es| && es[k].DownMsg?
  }

  // Event k is the down message the channel is still down from: none came up since,
  // and it was up when that message came.
  predicate DownSince(es: seq<Event>, k: nat) {
    DownAt(es, k) && !UpBetween(es, k, |es|) && forall m :: 0 <= m < k && DownAt(es, m) ==> UpBetween(es, m, k)
  }

  // The offline time is that of the first down message after the last time the
  // channel was up; without such a message there is none.
  ghost predicate OfflineOk(cfg: Config, w0: World, es: seq<Event>, since: Option<int>) {
    match since
    case None => forall k :: 0 <= k && DownAt(es, k) ==> UpBetween(es, k, |es|)
    case Some(t) => exists k :: 0 <= k && DownSince(es, k) && Exec(cfg, w0, es[..k]).Some? && Exec(cfg, w0, es[..k]).value.now == t
  }

  lemma OfflineChanges(cfg: Config, w: World, e: Event)
    requires Enabled(w, e)
    ensures Step(cfg, w, e).s.offlineSince ==
            if e.UpMsg? then None
            else if e.DownMsg? && w.s.offlineSince == None then Some(w.now)
            else w.s.offlineSince
  {
  }

  lemma UpBetweenSnoc(es: seq<Event>, e: Event, k: nat, n: nat)
    requires n <= |es|
    ensures UpBetween(es + [e], k, n) <==> UpBetween(es, k, n)
    ensures k < |es| ==> (UpBetween(es + [e], k, |es| + 1) <==> UpBetween(es, k, |es|) || e.UpMsg?)
  {
    var more := es + [e];
    if m :| k < m < n && m < |es| && es[m].UpMsg? {
      assert more[m].UpMsg?;
    }
    if k < |es| {
      if e.UpMsg? {
        assert more[|es|].UpMsg?;
      }
      if m :| k < m < |es| && es[m].UpMsg? {
        assert more[m].UpMsg?;
      }
    }
  }

  lemma DownSinceSnoc(es: seq<Event>, e: Event, k: nat)
    requires k < |es|
    ensures DownSince(es + [e], k) <==> DownSince(es, k) && !e.UpMsg?
  {
    UpBetweenSnoc(es, e, k, |es|);
    forall m | 0 <= m < k
      ensures UpBetween(es + [e], m, k) <==> UpBetween(es, m, k)
    {
      UpBetweenSnoc(es, e, m, k);
    }
  }

  lemma OfflineSnoc(cfg: Config, w0: World, es: seq<Event>, w: World, e: Event, more: seq<Event>, v: World)
    requires Exec(cfg, w0, es) == Some(w) && Enabled(w, e) && OfflineOk(cfg, w0, es, w.s.offlineSince)
    requires more == es + [e] && v == Step(cfg, w, e)
    ensures OfflineOk(cfg, w0, more, v.s.offlineSince)
  {
    OfflineChanges(cfg, w, e);
    forall k | 0 <= k < |es|
      ensures UpBetween(more, k, |more|) <==> UpBetween(es, k, |es|) || e.UpMsg?
    {
      UpBetweenSnoc(es, e, k, |es|);
    }
    if e.DownMsg? && w.s.offlineSince == None {
      FreshDown(es, e);
      assert more[..|es|] == es;
    } else if w.s.offlineSince.Some? && !e.UpMsg? {
      var k :| 0 <= k && DownSince(es, k) && Exec(cfg, w0, es[..k]).Some? &&
               Exec(cfg, w0, es[..k]).value.now == w.s.offlineSince.value;
      DownSinceSnoc(es, e, k);
      assert more[..k] == es[..k];
    }
  }

  lemma FreshDown(es: seq<Event>, e: Event)
    requires e.DownMsg? && forall k :: 0 <= k && DownAt(es, k) ==> UpBetween(es, k, |es|)
    ensures DownSince(es + [e], |es|)
  {
    forall m | 0 <= m < |es| && DownAt(es + [e], m)
      ensures UpBetween(es + [e], m, |es|)
    {
      assert DownAt(es, m);
      UpBetweenSnoc(es, e, m, |es|);
    }
  }

  // To show that p holds of a run, show it of the empty run and keep it over every step.
  lemma {:induction false} RunInduction(cfg: Config, w0: World, es: seq<Event>, w: World, p: (seq<Event>, World) -> bool)
    requires Exec(cfg, w0, es) == Some(w) && p([], w0)
    requires forall fs, v, e, more :: p(fs, v) && Exec(cfg, w0, fs) == Some(v) && Extends(fs, e, more) && Enabled(v, e) ==>
               p(more, Step(cfg, v, e))
    ensures p(es, w)
  {
    if es != [] {
      var front, e := es[..|es| - 1], es[|es| - 1];
      RunInduction(cfg, w0, front, Exec(cfg, w0, front).value, p);
      assert Extends(front, e, es);
    }
  }

  predicate Extends(es: seq<Event>, e: Event, more: seq<Event>) {
    more == es + [e]
  }

  // In every run the offline time is that of the down message the channel is still down from.
  lemma OfflineSinceExact(cfg: Config, w0: World, pubsub: bool, es: seq<Event>, w: World)
    requires Starts(cfg, w0, pubsub) && Exec(cfg, w0, es) == Some(w)
    ensures OfflineOk(cfg, w0, es, w.s.offlineSince)
  {
    var p := (fs: seq<Event>, v: World) => OfflineOk(cfg, w0, fs, v.s.offlineSince);
    forall fs, v, e, more | p(fs, v) && Exec(cfg, w0, fs) == Some(v) && Extends(fs, e, more) && Enabled(v, e)
      ensures p(more, Step(cfg, v, e))
    {
      OfflineSnoc(cfg, w0, fs, v, e, more, Step(cfg, v, e));
    }
    RunInduction(cfg, w0, es, w, p);
  }
}
