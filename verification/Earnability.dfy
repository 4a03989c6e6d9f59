// What the endpoint test CanEarnWithin says about earnability over time, and
// when the two readings of "preconditions met" agree.
module Earnability {
  import opened Common
  import opened Inventory

  // ------------------------------------------------------------------
  // Earnability written out
  // ------------------------------------------------------------------

  // The drop is unclaimed, asks for minutes, has no excluded text, has all its
  // preconditions claimed, and carries a reward or unlocks an unclaimed drop.
  ghost predicate CanProgress(drops: seq<TimedDrop>, d: TimedDrop, matches: Keywords) {
    && !d.isClaimed && d.required > 0
    && !matches(d.name) && (forall b :: b in d.benefits ==> !matches(b.name))
    && (forall pid :: pid in d.preconditions ==> exists k :: 0 <= k < |drops| && drops[k].id == pid && drops[k].isClaimed)
    && (d.benefits != [] || exists k :: 0 <= k < |drops| && !drops[k].isClaimed && d.id in drops[k].preconditions)
  }

  // The campaign allows every channel or lists this one by ID or login, and the
  // channel shows the campaign's game unless that is one of the two special ones.
  predicate Admits(c: Campaign, ch: Channel) {
    && (c.allowed == [] || exists a :: a in c.allowed && (a.id == ch.id || a.login == ch.login))
    && (c.game.id in {"509663", "509672"} || (ch.game.Some? && ch.game.value.id == c.game.id))
  }

  lemma CanProgressExact(drops: seq<TimedDrop>, d: TimedDrop, matches: Keywords)
    ensures BaseEarn(drops, d, matches) <==> CanProgress(drops, d, matches)
  {
    forall pid
      ensures ClaimedId(drops, pid) <==> exists k :: 0 <= k < |drops| && drops[k].id == pid && drops[k].isClaimed
    {
    }
  }

  // A drop is earnable now on a channel: both windows are open, the account is linked,
  // the campaign is valid and admits the channel, and the drop can progress.
  lemma EarnableExact(c: Campaign, i: nat, now: int, ch: Option<Channel>, matches: Keywords)
    requires i < |c.drops|
    ensures Earnable(c, i, now, ch, matches) <==>
            && c.linked && c.valid && c.startsAt <= now < c.endsAt && c.drops[i].startsAt <= now < c.drops[i].endsAt
            && (ch.Some? ==> Admits(c, ch.value))
            && CanProgress(c.drops, c.drops[i], matches)
  {
    CanProgressExact(c.drops, c.drops[i], matches);
  }

  // The endpoint test: both windows reach into the interval from now to stamp.
  lemma EndpointExact(c: Campaign, now: int, stamp: int, matches: Keywords)
    ensures CanEarnWithin(c, now, stamp, matches) <==>
            c.linked && c.valid && now < c.endsAt && c.startsAt < stamp &&
            exists i :: 0 <= i < |c.drops| && now < c.drops[i].endsAt && c.drops[i].startsAt < stamp &&
                        CanProgress(c.drops, c.drops[i], matches)
  {
    forall i | 0 <= i < |c.drops|
      ensures EarnableWithin(c.drops, c.drops[i], now, stamp, matches) <==>
              now < c.drops[i].endsAt && c.drops[i].startsAt < stamp && CanProgress(c.drops, c.drops[i], matches)
    {
      CanProgressExact(c.drops, c.drops[i], matches);
    }
  }

  // The drop found on a channel is the first one earnable there, and the campaign admits the channel.
  lemma FoundOnChannel(c: Campaign, now: int, ch: Channel, matches: Keywords)
    requires FirstEarnable(c, now, Some(ch), matches).Some?
    ensures var i := FirstEarnable(c, now, Some(ch), matches).value;
            && i < |c.drops| && Admits(c, ch) && CanProgress(c.drops, c.drops[i], matches)
            && c.linked && c.valid && c.startsAt <= now < c.endsAt && c.drops[i].startsAt <= now < c.drops[i].endsAt
  {
    EarnableExact(c, FirstEarnable(c, now, Some(ch), matches).value, now, Some(ch), matches);
  }

  // ------------------------------------------------------------------
  // Earnability over time
  // ------------------------------------------------------------------

  // At some instant of [now, stamp) the campaign can be earned on some channel.
  ghost predicate EarnableSometime(c: Campaign, now: int, stamp: int, matches: Keywords) {
    exists t :: now <= t < stamp && CanEarn(c, t, None, matches)
  }

  // The first instant at which the query interval, the campaign window and the drop window overlap.
  function Opening(c: Campaign, d: TimedDrop, now: int): int {
    Max(now, Max(c.startsAt, d.startsAt))
  }

  predicate WindowsOverlap(c: Campaign, d: TimedDrop, now: int, stamp: int) {
    Opening(c, d, now) < Min(stamp, Min(c.endsAt, d.endsAt))
  }

  // The windows of the drops are non-empty and lie inside the campaign's window.
  predicate NestedWindows(c: Campaign) {
    forall d :: d in c.drops ==> c.startsAt <= d.startsAt < d.endsAt <= c.endsAt
  }

  // Earnability over an interval is an overlap of three windows; no sampling is needed.
  lemma EarnableSometimeExact(c: Campaign, now: int, stamp: int, matches: Keywords)
    ensures EarnableSometime(c, now, stamp, matches) <==>
            c.linked && c.valid &&
            exists i :: 0 <= i < |c.drops| && BaseEarn(c.drops, c.drops[i], matches) &&
                        WindowsOverlap(c, c.drops[i], now, stamp)
  {
    if EarnableSometime(c, now, stamp, matches) {
      var t :| now <= t < stamp && CanEarn(c, t, None, matches);
      var i :| 0 <= i < |c.drops| && Earnable(c, i, t, None, matches);
      assert WindowsOverlap(c, c.drops[i], now, stamp);
    }
    if c.linked && c.valid {
      forall i | 0 <= i < |c.drops| && BaseEarn(c.drops, c.drops[i], matches) &&
                 WindowsOverlap(c, c.drops[i], now, stamp)
        ensures EarnableSometime(c, now, stamp, matches)
      {
        var t := Opening(c, c.drops[i], now);
        assert Earnable(c, i, t, None, matches);
        assert CanEarn(c, t, None, matches);
      }
    }
  }

  // Whatever the windows look like, the endpoint test never misses an earnable campaign.
  lemma EndpointTestComplete(c: Campaign, now: int, stamp: int, matches: Keywords)
    requires EarnableSometime(c, now, stamp, matches)
    ensures CanEarnWithin(c, now, stamp, matches)
  {
    var t :| now <= t < stamp && CanEarn(c, t, None, matches);
    var i :| 0 <= i < |c.drops| && Earnable(c, i, t, None, matches);
    assert EarnableWithin(c.drops, c.drops[i], now, stamp, matches);
  }

  // With nested non-empty windows the test is exact.
  lemma EndpointTestExact(c: Campaign, now: int, stamp: int, matches: Keywords)
    requires now < stamp && NestedWindows(c)
    ensures CanEarnWithin(c, now, stamp, matches) <==> EarnableSometime(c, now, stamp, matches)
  {
    EarnableSometimeExact(c, now, stamp, matches);
    if EarnableSometime(c, now, stamp, matches) {
      EndpointTestComplete(c, now, stamp, matches);
    }
    if CanEarnWithin(c, now, stamp, matches) {
      var i :| 0 <= i < |c.drops| && EarnableWithin(c.drops, c.drops[i], now, stamp, matches);
      assert c.drops[i] in c.drops;
      assert WindowsOverlap(c, c.drops[i], now, stamp);
    }
  }

  // For any windows, the test and earnability over the interval agree exactly when
  // an accepted campaign has some base-earnable drop whose windows overlap.
  lemma EndpointTestAgreement(c: Campaign, now: int, stamp: int, matches: Keywords)
    ensures (CanEarnWithin(c, now, stamp, matches) <==> EarnableSometime(c, now, stamp, matches)) <==>
            (CanEarnWithin(c, now, stamp, matches) ==>
               exists i :: 0 <= i < |c.drops| && BaseEarn(c.drops, c.drops[i], matches) &&
                           WindowsOverlap(c, c.drops[i], now, stamp))
  {
    EarnableSometimeExact(c, now, stamp, matches);
    if EarnableSometime(c, now, stamp, matches) {
      EndpointTestComplete(c, now, stamp, matches);
    }
  }

  // Without nesting the test can accept a campaign that is earnable at no instant:
  // it holds for a drop whose window closes before the campaign opens.
  lemma EndpointTestNeedsNesting() returns (c: Campaign)
    ensures CanEarnWithin(c, 0, 60, NO_KEYWORDS) && !EarnableSometime(c, 0, 60, NO_KEYWORDS)
  {
    var d := TimedDrop("d", "drop", [Benefit("b", "reward", DirectEntitlement)], 0, 5, "", false, [], 30, 0);
    c := Campaign("c", "campaign", Game("1", "game"), true, 10, 50, true, [], [d]);
    assert EarnableWithin(c.drops, c.drops[0], 0, 60, NO_KEYWORDS);
    EarnableSometimeExact(c, 0, 60, NO_KEYWORDS);
  }

  // ------------------------------------------------------------------
  // Readiness against earnability
  // ------------------------------------------------------------------

  predicate DistinctIds(drops: seq<TimedDrop>) {
    forall i, j :: 0 <= i < j < |drops| ==> drops[i].id != drops[j].id
  }

  // The last drop of this ID is claimed.
  predicate LastClaimed(drops: seq<TimedDrop>, id: string) {
    exists k :: 0 <= k < |drops| && drops[k].id == id && drops[k].isClaimed &&
                forall j :: k < j < |drops| ==> drops[j].id != id
  }

  // The lookup map holds the last drop of each ID.
  lemma {:induction false} ByIdClaimed(drops: seq<TimedDrop>, id: string)
    ensures id in ById(drops) && ById(drops)[id].isClaimed <==> LastClaimed(drops, id)
  {
    if drops != [] {
      var n := |drops| - 1;
      var front := drops[..n];
      ByIdClaimed(front, id);
      if drops[n].id != id {
        if k :| 0 <= k < n && front[k].id == id && front[k].isClaimed && forall j :: k < j < n ==> front[j].id != id {
          assert drops[k].id == id && forall j :: k < j < |drops| ==> drops[j].id != id;
        }
        if k :| 0 <= k < |drops| && drops[k].id == id && drops[k].isClaimed &&
                forall j :: k < j < |drops| ==> drops[j].id != id {
          assert front[k].id == id && forall j :: k < j < n ==> front[j] == drops[j];
        }
      }
    }
  }

  lemma {:induction false} FirstUnmetReady(drops: seq<TimedDrop>, pids: seq<string>)
    ensures FirstUnmet(ById(drops), pids) == Ready <==> forall pid :: pid in pids ==> LastClaimed(drops, pid)
  {
    if pids != [] {
      ByIdClaimed(drops, pids[0]);
      FirstUnmetReady(drops, pids[1..]);
      assert pids == [pids[0]] + pids[1..];
    }
  }

  // What "Ready" means whatever the IDs: unclaimed, not excluded, and for each
  // precondition the last drop of that ID is claimed.
  lemma ReadyByLast(drops: seq<TimedDrop>, d: TimedDrop, matches: Keywords)
    ensures StatusOf(drops, d, matches) == Ready <==>
            !d.isClaimed && !ExcludedByKeyword(d, matches) &&
            forall pid :: pid in d.preconditions ==> LastClaimed(drops, pid)
  {
    FirstUnmetReady(drops, d.preconditions);
  }

  lemma LastIsClaimed(drops: seq<TimedDrop>, id: string)
    ensures LastClaimed(drops, id) ==> ClaimedId(drops, id)
    ensures DistinctIds(drops) ==> (LastClaimed(drops, id) <==> ClaimedId(drops, id))
  {
  }

  // The operator is shown "Ready" exactly for unclaimed, unexcluded drops whose preconditions are met.
  lemma ReadyExact(drops: seq<TimedDrop>, d: TimedDrop, matches: Keywords)
    requires DistinctIds(drops)
    ensures StatusOf(drops, d, matches) == Ready <==>
            !d.isClaimed && !ExcludedByKeyword(d, matches) && PreconditionsMet(drops, d)
  {
    ReadyByLast(drops, d, matches);
    forall pid | pid in d.preconditions
      ensures LastClaimed(drops, pid) <==> ClaimedId(drops, pid)
    {
      LastIsClaimed(drops, pid);
    }
  }

  // What the operator is shown for a drop that is not ready: claimed comes first, then
  // excluded, and then the first precondition without a claimed last drop, by the
  // name of that drop, or by its ID when there is no such drop.
  lemma StatusExact(drops: seq<TimedDrop>, d: TimedDrop, matches: Keywords)
    ensures var s := StatusOf(drops, d, matches);
            var excluded := matches(d.name) || exists b :: b in d.benefits && matches(b.name);
            && (s == Claimed <==> d.isClaimed)
            && (s == Excluded <==> !d.isClaimed && excluded)
            && (s.BlockedBy? ==> exists j: nat :: BlocksFirst(drops, d.preconditions, j) && s.what == Shown(drops, d.preconditions[j]))
  {
    if !d.isClaimed && !ExcludedByKeyword(d, matches) && StatusOf(drops, d, matches).BlockedBy? {
      var j := FirstBlocker(drops, d.preconditions);
    }
  }

  // Precondition j is the first whose last drop is not claimed.
  predicate BlocksFirst(drops: seq<TimedDrop>, pids: seq<string>, j: nat) {
    j < |pids| && !LastClaimed(drops, pids[j]) && forall k :: 0 <= k < j ==> LastClaimed(drops, pids[k])
  }

  // The name of the last drop of this ID, or the ID.
  function Shown(drops: seq<TimedDrop>, id: string): string {
    if drops == [] then id
    else if drops[|drops| - 1].id == id then drops[|drops| - 1].name
    else Shown(drops[..|drops| - 1], id)
  }

  lemma {:induction false} ShownIsLast(drops: seq<TimedDrop>, id: string)
    ensures Shown(drops, id) == if id in ById(drops) then ById(drops)[id].name else id
  {
    if drops != [] {
      ShownIsLast(drops[..|drops| - 1], id);
    }
  }

  lemma {:induction false} FirstBlocker(drops: seq<TimedDrop>, pids: seq<string>) returns (j: nat)
    requires FirstUnmet(ById(drops), pids).BlockedBy?
    ensures BlocksFirst(drops, pids, j) && FirstUnmet(ById(drops), pids).what == Shown(drops, pids[j])
  {
    ByIdClaimed(drops, pids[0]);
    ShownIsLast(drops, pids[0]);
    if LastClaimed(drops, pids[0]) {
      j := FirstBlocker(drops, pids[1..]);
      assert forall k :: 0 < k <= j ==> pids[k] == pids[1..][k - 1];
      j := j + 1;
    } else {
      j := 0;
    }
  }

  // With repeated IDs, "Ready" and met preconditions agree on an unclaimed, unexcluded
  // drop exactly when, if all its preconditions are claimed IDs, the last drop of each is claimed.
  lemma ReadyAgreement(drops: seq<TimedDrop>, d: TimedDrop, matches: Keywords)
    requires !d.isClaimed && !ExcludedByKeyword(d, matches)
    ensures (StatusOf(drops, d, matches) == Ready <==> PreconditionsMet(drops, d)) <==>
            (PreconditionsMet(drops, d) ==> forall pid :: pid in d.preconditions ==> LastClaimed(drops, pid))
  {
    ReadyByLast(drops, d, matches);
    forall pid | pid in d.preconditions && LastClaimed(drops, pid)
      ensures ClaimedId(drops, pid)
    {
      LastIsClaimed(drops, pid);
    }
  }

  // With a repeated ID the two views can disagree: a claimed drop hides behind
  // a later unclaimed one of the same ID.
  lemma ReadyNeedsDistinctIds() returns (drops: seq<TimedDrop>, d: TimedDrop)
    ensures d in drops && BaseEarn(drops, d, NO_KEYWORDS) && StatusOf(drops, d, NO_KEYWORDS) == BlockedBy("second")
  {
    var reward := [Benefit("b", "reward", DirectEntitlement)];
    var a := TimedDrop("x", "first", reward, 0, 9, "", true, [], 30, 30);
    var b := TimedDrop("x", "second", reward, 0, 9, "", false, [], 30, 0);
    d := TimedDrop("y", "third", reward, 0, 9, "", false, ["x"], 30, 0);
    drops := [a, b, d];
    assert drops[0].isClaimed && drops[2] == d;
    assert ClaimedId(drops, "x");
    assert [a][..0] == [] && [a, b][..1] == [a] && drops[..2] == [a, b];
    assert ById([a]) == map["x" := a];
    assert ById([a, b]) == map["x" := b];
    assert ById(drops) == map["x" := b, "y" := d];
  }

  // ------------------------------------------------------------------
  // Eligibility as documented and as coded
  // ------------------------------------------------------------------

  // The campaign has rewards, all of them badges or emotes.
  predicate OnlyBadgesOrEmotes(c: Campaign) {
    HasBadgeOrEmote(c) && forall d, b :: d in c.drops && b in d.benefits ==> b.kind == Badge || b.kind == Emote
  }

  // What the comment on the function promises: a linked account always, and the
  // badge and emote setting for campaigns with no other rewards.
  predicate DocumentedEligible(c: Campaign, enableBadgesEmotes: bool) {
    c.linked && (OnlyBadgesOrEmotes(c) ==> enableBadgesEmotes)
  }

  // The comment is right about a campaign exactly when it has no badge or emote, or
  // the setting is on and it is linked, or the setting is off and it is unlinked or
  // has no other rewards.
  lemma EligibleAgreement(c: Campaign, enableBadgesEmotes: bool)
    ensures (Eligible(c, enableBadgesEmotes) <==> DocumentedEligible(c, enableBadgesEmotes)) <==>
            (!HasBadgeOrEmote(c) || if enableBadgesEmotes then c.linked else !c.linked || OnlyBadgesOrEmotes(c))
  {
  }

  // What the code does: with a badge or emote among the rewards the setting decides,
  // otherwise the link.
  lemma EligibleExact(c: Campaign, enableBadgesEmotes: bool)
    ensures Eligible(c, enableBadgesEmotes) <==>
            if exists d, b :: d in c.drops && b in d.benefits && (b.kind == Badge || b.kind == Emote)
            then enableBadgesEmotes else c.linked
  {
  }

  // Eligible without a linked account: exactly with the setting on and a badge or emote to earn.
  lemma EligibleUnlinked(c: Campaign, enableBadgesEmotes: bool)
    requires !c.linked
    ensures Eligible(c, enableBadgesEmotes) <==> enableBadgesEmotes && HasBadgeOrEmote(c)
  {
  }

  // Such a campaign, with one unlinked badge drop that anyone could start on.
  function BadgeCampaign(): Campaign {
    var d := TimedDrop("d", "drop", [Benefit("b", "badge", Badge)], 0, 50, "", false, [], 30, 0);
    Campaign("c", "campaign", Game("1", "game"), false, 0, 50, true, [], [d])
  }

  lemma BadgeCampaignIsEligible()
    ensures var c := BadgeCampaign();
            Eligible(c, true) && !DocumentedEligible(c, true) && !c.linked && Active(c, 0)
  {
    var c := BadgeCampaign();
    assert c.drops[0] in c.drops && c.drops[0].benefits[0] in c.drops[0].benefits;
  }

  // No earnability test lets an unlinked campaign through.
  lemma EarnableIsLinked(c: Campaign, now: int, stamp: int, ch: Option<Channel>, matches: Keywords)
    ensures CanEarn(c, now, ch, matches) || CanEarnWithin(c, now, stamp, matches) ==> c.linked
  {
  }
}
