// The watch session (internal/session/watch_session.go). Each method is one of
// the sections of code that run under a lock; the pointer `activeDrop` is an
// index into the array of drops, which the session and its campaign share.
module Session {
  import opened Common
  import opened Inventory
  import opened Claiming

  // What a session is given and never changes. The campaign's own `drops` are
  // not used: the drops live in the session's array.
  datatype Config = Config(
    campaign: Campaign, ch: Channel, matches: Keywords, offlineGrace: int, noProgressTimeout: int, userId: string)

  datatype State = State(drops: seq<TimedDrop>, active: Option<nat>, offlineSince: Option<int>, lastProgressAt: int)

  datatype Stop = ChannelOffline | NoProgress | Complete | ClaimFailed | ContextDone

  predicate ActiveInRange(s: State) {
    s.active.Some? ==> s.active.value < |s.drops|
  }

  ghost function NextEarnable(cfg: Config, drops: seq<TimedDrop>, now: int): (r: Option<nat>)
    ensures r.Some? ==> r.value < |drops|
  {
    FirstEarnable(cfg.campaign.(drops := drops), now, Some(cfg.ch), cfg.matches)
  }

  ghost function Begin(cfg: Config, drops: seq<TimedDrop>, now: int): State {
    State(drops, NextEarnable(cfg, drops, now), None, now)
  }

  // The checks at the head of a reconcile tick.
  function TickVerdict(cfg: Config, s: State, now: int): Option<Stop> {
    if s.offlineSince.Some? && now - s.offlineSince.value >= cfg.offlineGrace then Some(ChannelOffline)
    else if cfg.noProgressTimeout > 0 && now - s.lastProgressAt >= cfg.noProgressTimeout then Some(NoProgress)
    else None
  }

  function WatchdogVerdict(cfg: Config, s: State, now: int): Option<Stop> {
    if s.offlineSince.Some? && now - s.offlineSince.value >= cfg.offlineGrace then Some(ChannelOffline) else None
  }

  function WithInstance(d: TimedDrop, instance: string): TimedDrop {
    if instance == "" then d else d.(claimId := instance)
  }

  // A progress report for drop `id`; the second component is the drop whose
  // minutes are complete, which asks for a claim.
  function Report(s: State, id: string, instance: string, minutes: int, now: int): (State, Option<nat>)
    requires ActiveInRange(s)
  {
    if s.active.None? || s.drops[s.active.value].id != id then (s, None)
    else
      var i := s.active.value;
      var d := s.drops[i];
      var m := Clamp(minutes, d.required);
      (s.(drops := s.drops[i := WithInstance(d, instance).(current := m)],
          lastProgressAt := if m != d.current then now else s.lastProgressAt),
       if m >= d.required then Some(i) else None)
  }

  // A report asks for a claim exactly when it is about the active drop and leaves it no minutes to watch.
  lemma ClaimAskedAtZeroRemaining(s: State, id: string, instance: string, minutes: int, now: int)
    requires ActiveInRange(s)
    ensures var (t, claim) := Report(s, id, instance, minutes, now);
            claim.Some? <==> s.active.Some? && s.drops[s.active.value].id == id && t.drops[s.active.value].Remaining() == 0
  {
  }

  // What a report leaves behind. One that is not about the active drop changes
  // nothing. Any other moves the minutes of that drop, to what the server says where
  // that is possible at all, stores the instance ID it carries, and touches no other
  // drop; the progress clock is set exactly where the minutes changed, and a claim is
  // asked for exactly where the reported minutes reach the required ones.
  lemma ReportExact(s: State, id: string, instance: string, minutes: int, now: int)
    requires ActiveInRange(s)
    requires s.active.Some? ==> s.drops[s.active.value].required > 0
    ensures var (t, claim) := Report(s, id, instance, minutes, now);
            if s.active.None? || s.drops[s.active.value].id != id then t == s && claim == None
            else
              var i := s.active.value;
              var d, d' := s.drops[i], t.drops[i];
              && (0 <= minutes <= d.required ==> d'.current == minutes)
              && (minutes < 0 ==> d'.current == 0)
              && (minutes > d.required ==> d'.current == d.required)
              && d'.claimId == (if instance == "" then d.claimId else instance)
              && t == s.(drops := s.drops[i := d.(current := d'.current, claimId := d'.claimId)],
                         lastProgressAt := if d'.current != d.current then now else s.lastProgressAt)
              && claim == (if minutes >= d.required then Some(i) else None)
  {
  }

  // A claim message about the active drop, or about none in particular, asks for a
  // claim of the active drop and at most stores an instance ID; any other does nothing.
  lemma ClaimMessageExact(s: State, id: string, instance: string)
    requires ActiveInRange(s)
    ensures var (t, claim) := ClaimMessage(s, id, instance);
            if s.active.Some? && (id == "" || s.drops[s.active.value].id == id)
            then
              var i := s.active.value;
              claim == Some(i) &&
              t == s.(drops := s.drops[i := s.drops[i].(claimId := if instance == "" then s.drops[i].claimId else instance)])
            else t == s && claim == None
  {
    if s.active.Some? {
      assert s.drops[s.active.value := s.drops[s.active.value]] == s.drops;
    }
  }

  // A drop-claim message; an empty ID stands for whatever drop is active.
  function ClaimMessage(s: State, id: string, instance: string): (State, Option<nat>)
    requires ActiveInRange(s)
  {
    if s.active.None? || (id != "" && s.drops[s.active.value].id != id) then (s, None)
    else
      var i := s.active.value;
      (s.(drops := s.drops[i := WithInstance(s.drops[i], instance)]), Some(i))
  }

  function StreamDown(s: State, now: int): State {
    if s.offlineSince.None? then s.(offlineSince := Some(now)) else s
  }

  function StreamUp(s: State): State {
    s.(offlineSince := None)
  }

  // claimAndAdvance, first part: the drop to claim, read afresh.
  function ClaimTarget(s: State): Option<nat>
    requires ActiveInRange(s)
  {
    if s.active.None? || s.drops[s.active.value].isClaimed then None else s.active
  }

  // claimAndAdvance, second part: the server's answer reaches the drop.
  function Settle(s: State, i: nat, claimId: string, reply: ClaimReply): State
    requires i < |s.drops|
  {
    if Judge(reply) == Granted then s.(drops := s.drops[i := GrantedDrop(s.drops[i], claimId)]) else s
  }

  // claimAndAdvance, last part: on to the next drop, or the session is complete.
  ghost function Advance(cfg: Config, s: State, now: int): State {
    match NextEarnable(cfg, s.drops, now)
    case Some(i) => s.(active := Some(i), lastProgressAt := now)
    case None => s.(active := None)
  }

  // The tick stops for the channel when it has been down for the grace time, else for
  // lack of progress when that check is on and its time is up, and otherwise goes on;
  // the watchdog stops for the channel only, at the same instants.
  lemma StopsExact(cfg: Config, s: State, now: int)
    ensures TickVerdict(cfg, s, now) == Some(ChannelOffline) <==> DownFor(s, now, cfg.offlineGrace)
    ensures TickVerdict(cfg, s, now) == Some(NoProgress) <==>
            !DownFor(s, now, cfg.offlineGrace) && 0 < cfg.noProgressTimeout <= now - s.lastProgressAt
    ensures TickVerdict(cfg, s, now) == None <==>
            !DownFor(s, now, cfg.offlineGrace) &&
            (cfg.noProgressTimeout <= 0 || now - s.lastProgressAt < cfg.noProgressTimeout)
    ensures WatchdogVerdict(cfg, s, now) == (if DownFor(s, now, cfg.offlineGrace) then Some(ChannelOffline) else None)
  {
  }

  // The channel went down at least `time` ago.
  predicate DownFor(s: State, now: int, time: int) {
    match s.offlineSince
    case None => false
    case Some(since) => since + time <= now
  }

  // What a claim reply leaves behind: a grant claims the drop, under the ID that was
  // sent and with full minutes; any other reply leaves everything as it is.
  lemma SettleExact(s: State, i: nat, claimId: string, reply: ClaimReply)
    requires i < |s.drops|
    ensures var t := Settle(s, i, claimId, reply);
            if Grants(reply)
            then t == s.(drops := t.drops) && |t.drops| == |s.drops| &&
                 (forall k :: 0 <= k < |s.drops| && k != i ==> t.drops[k] == s.drops[k]) &&
                 t.drops[i] == s.drops[i].(isClaimed := true, claimId := claimId, current := s.drops[i].required)
            else t == s
  {
    JudgeExact(reply);
  }

  // After a claim the session goes on with the first earnable drop and a fresh
  // progress clock, or with none and the clock as it was.
  lemma AdvanceExact(cfg: Config, s: State, now: int)
    ensures var t, c := Advance(cfg, s, now), cfg.campaign.(drops := s.drops);
            && IsFirstEarnable(c, now, Some(cfg.ch), cfg.matches, t.active)
            && t == s.(active := t.active, lastProgressAt := if t.active.Some? then now else s.lastProgressAt)
  {
  }

  class WatchSession {
    const cfg: Config
    const drops: array<TimedDrop>
    var activeDrop: Option<nat>
    var offlineSince: Option<int>
    var lastProgressAt: int

    ghost function View(): State
      reads this, drops
    {
      State(drops[..], activeDrop, offlineSince, lastProgressAt)
    }

    ghost predicate Valid()
      reads this
    {
      activeDrop.Some? ==> activeDrop.value < drops.Length
    }

    // The head of Run. The session starts only if this leaves a drop active.
    constructor (cfg: Config, drops: array<TimedDrop>, now: int)
      ensures this.cfg == cfg && this.drops == drops
      ensures Valid() && View() == Begin(cfg, drops[..], now)
    {
      this.cfg := cfg;
      this.drops := drops;
      activeDrop := None;
      offlineSince := None;
      lastProgressAt := now;
      new;
      activeDrop := FirstEarnableDrop(cfg.campaign.(drops := drops[..]), now, Some(cfg.ch), cfg.matches);
    }

    method TickChecks(now: int) returns (stop: Option<Stop>)
      ensures stop == TickVerdict(cfg, View(), now)
    {
      var since := offlineSince;
      if since.Some? && now - since.value >= cfg.offlineGrace {
        return Some(ChannelOffline);
      }
      var last := lastProgressAt;
      if cfg.noProgressTimeout > 0 && now - last >= cfg.noProgressTimeout {
        return Some(NoProgress);
      }
      return None;
    }

    method OnReport(id: string, instance: string, minutes: int, now: int) returns (claim: Option<nat>)
      requires Valid()
      modifies this, drops
      ensures Valid() && (View(), claim) == Report(old(View()), id, instance, minutes, now)
      ensures old(activeDrop.Some? && drops[activeDrop.value].required > 0) ==>
                (claim.Some? <==>
                 drops[activeDrop.value].id == id && minutes >= drops[activeDrop.value].required)
    {
      claim := None;
      if activeDrop.Some? && drops[activeDrop.value].id == id {
        var i := activeDrop.value;
        if instance != "" {
          drops[i] := drops[i].(claimId := instance);
        }
        assert drops[..] == old(drops[..])[i := WithInstance(old(drops[i]), instance)];
        ghost var before := WithInstance(old(drops[i]), instance);
        var changed := ReconcileMinutes(drops, i, minutes);
        assert drops[..] == old(drops[..])[i := before.(current := Clamp(minutes, before.required))];
        assert drops[i] == drops[..][i];
        if changed {
          lastProgressAt := now;
        }
        if drops[i].current >= drops[i].required {
          claim := Some(i);
        }
      }
    }

    method OnDropClaim(id: string, instance: string) returns (claim: Option<nat>)
      requires Valid()
      modifies drops
      ensures Valid() && (View(), claim) == ClaimMessage(old(View()), id, instance)
    {
      claim := None;
      if activeDrop.Some? && (id == "" || drops[activeDrop.value].id == id) {
        var i := activeDrop.value;
        if instance != "" {
          drops[i] := drops[i].(claimId := instance);
        }
        assert drops[..] == old(drops[..])[i := WithInstance(old(drops[i]), instance)];
        claim := Some(i);
      }
    }

    method OnStreamDown(now: int)
      modifies this
      ensures View() == StreamDown(old(View()), now)
    {
      if offlineSince.None? {
        offlineSince := Some(now);
      }
    }

    method OnStreamUp()
      modifies this
      ensures View() == StreamUp(old(View()))
    {
      offlineSince := None;
    }

    method Watchdog(now: int) returns (stop: Option<Stop>)
      ensures stop == WatchdogVerdict(cfg, View(), now)
    {
      if offlineSince.Some? && now - offlineSince.value >= cfg.offlineGrace {
        return Some(ChannelOffline);
      }
      return None;
    }

    method EnterClaim() returns (target: Option<nat>)
      requires Valid()
      ensures target == ClaimTarget(View())
    {
      if activeDrop.None? || drops[activeDrop.value].isClaimed {
        return None;
      }
      return activeDrop;
    }

    // The write goes through the drop pointer, so every later reader of the
    // shared array sees the claim.
    method OnClaimReply(i: nat, claimId: string, reply: ClaimReply) returns (r: ClaimResult)
      requires i < drops.Length
      modifies drops
      ensures r == Judge(reply) && View() == Settle(old(View()), i, claimId, reply)
      ensures r == Granted <==> Grants(reply)
    {
      if reply.Failed? {
        return ClaimError;
      }
      if reply.NoReward? {
        return Refused;
      }
      if reply.status != EligibleForAll && reply.status != AlreadyClaimed {
        return Refused;
      }
      if reply.status != AlreadyClaimed && reply.connected.Some? && !reply.connected.value {
        return NotLinked;
      }
      drops[i] := drops[i].(isClaimed := true, claimId := claimId, current := drops[i].required);
      return Granted;
    }

    method AdvanceToNext(now: int) returns (complete: bool)
      requires Valid()
      modifies this
      ensures Valid() && View() == Advance(cfg, old(View()), now)
      ensures complete <==> activeDrop.None?
    {
      var next := FirstEarnableDrop(cfg.campaign.(drops := drops[..]), now, Some(cfg.ch), cfg.matches);
      if next.Some? {
        activeDrop := next;
        lastProgressAt := now;
        return false;
      }
      activeDrop := None;
      return true;
    }
  }
}
