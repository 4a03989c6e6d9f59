// Campaigns, timed drops and the conditions under which a drop can be earned
// (internal/inventory/campaign.go). Instants and minutes are integers.
module Inventory {
  import opened Common

  datatype Game = Game(id: string, name: string)

  datatype Channel = Channel(id: string, login: string, aclBased: bool, online: bool, game: Option<Game>)

  datatype BenefitType = Badge | Emote | DirectEntitlement | Unknown

  datatype Benefit = Benefit(id: string, name: string, kind: BenefitType)

  datatype TimedDrop = TimedDrop(
    id: string, name: string, benefits: seq<Benefit>, startsAt: int, endsAt: int,
    claimId: string, isClaimed: bool, preconditions: seq<string>, required: int, current: int)
  {
    // The least number of minutes that completes the drop.
    function Remaining(): (r: nat)
      ensures required <= current + r
      ensures r > 0 ==> required == current + r
    {
      if required - current < 0 then 0 else required - current
    }
  }

  datatype Campaign = Campaign(
    id: string, name: string, game: Game, linked: bool, startsAt: int, endsAt: int,
    valid: bool, allowed: seq<Channel>, drops: seq<TimedDrop>)

  // An exclude list as the predicate "this text matches one of the keywords".
  type Keywords = string -> bool

  const NO_KEYWORDS: Keywords := _ => false

  predicate ExcludedByKeyword(d: TimedDrop, matches: Keywords) {
    matches(d.name) || exists b :: b in d.benefits && matches(b.name)
  }

  predicate HasBadgeOrEmote(c: Campaign) {
    exists d, b :: d in c.drops && b in d.benefits && (b.kind == Badge || b.kind == Emote)
  }

  predicate Eligible(c: Campaign, enableBadgesEmotes: bool) {
    if HasBadgeOrEmote(c) then enableBadgesEmotes else c.linked
  }

  predicate Active(c: Campaign, now: int) {
    c.valid && c.startsAt <= now < c.endsAt
  }

  predicate Upcoming(c: Campaign, now: int) {
    c.valid && now < c.startsAt
  }

  predicate IsSpecial(g: Game) {
    g.id == "509663" || g.id == "509672"
  }

  // ------------------------------------------------------------------
  // Preconditions
  // ------------------------------------------------------------------

  ghost predicate ClaimedId(drops: seq<TimedDrop>, id: string) {
    exists k :: 0 <= k < |drops| && drops[k].isClaimed && drops[k].id == id
  }

  ghost predicate PreconditionsMet(drops: seq<TimedDrop>, d: TimedDrop) {
    forall pid :: pid in d.preconditions ==> ClaimedId(drops, pid)
  }

  // Some unclaimed drop lists id among its preconditions.
  ghost predicate InChain(drops: seq<TimedDrop>, id: string) {
    exists k :: 0 <= k < |drops| && !drops[k].isClaimed && id in drops[k].preconditions
  }

  method PreconditionsChain(drops: seq<TimedDrop>) returns (chain: set<string>)
    ensures forall id :: id in chain <==> InChain(drops, id)
  {
    chain := {};
    for k := 0 to |drops|
      invariant forall id :: id in chain <==> InChain(drops[..k], id)
    {
      var ps := drops[k].preconditions;
      ghost var before := chain;
      if !drops[k].isClaimed {
        for j := 0 to |ps|
          invariant chain == before + set p | p in ps[..j]
        {
          chain := chain + {ps[j]};
        }
        assert ps[..|ps|] == ps;
      }
      ChainExtend(drops, k);
    }
    assert drops[..|drops|] == drops;
  }

  lemma ChainExtend(drops: seq<TimedDrop>, k: nat)
    requires k < |drops|
    ensures forall id :: InChain(drops[..k + 1], id) <==>
              InChain(drops[..k], id) || (!drops[k].isClaimed && id in drops[k].preconditions)
  {
    forall id
      ensures InChain(drops[..k + 1], id) <==>
              InChain(drops[..k], id) || (!drops[k].isClaimed && id in drops[k].preconditions)
    {
      var a, b := drops[..k], drops[..k + 1];
      assert forall i :: 0 <= i < k ==> a[i] == b[i];
      assert b[k] == drops[k];
    }
  }

  method DropPreconditionsMet(drops: seq<TimedDrop>, d: TimedDrop) returns (met: bool)
    ensures met <==> PreconditionsMet(drops, d)
  {
    if |d.preconditions| == 0 {
      return true;
    }
    var claimed: set<string> := {};
    for k := 0 to |drops|
      invariant forall id :: id in claimed <==>
        exists i :: 0 <= i < k && drops[i].isClaimed && drops[i].id == id
    {
      if drops[k].isClaimed {
        claimed := claimed + {drops[k].id};
      }
    }
    assert forall id :: id in claimed <==> ClaimedId(drops, id);
    for j := 0 to |d.preconditions|
      invariant forall i :: 0 <= i < j ==> ClaimedId(drops, d.preconditions[i])
    {
      if d.preconditions[j] !in claimed {
        return false;
      }
    }
    return true;
  }

  // ------------------------------------------------------------------
  // Earnability
  // ------------------------------------------------------------------

  ghost predicate BaseEarn(drops: seq<TimedDrop>, d: TimedDrop, matches: Keywords) {
    && PreconditionsMet(drops, d)
    && !d.isClaimed
    && d.required > 0
    && !ExcludedByKeyword(d, matches)
    && (|d.benefits| > 0 || InChain(drops, d.id))
  }

  ghost predicate EarnableAt(drops: seq<TimedDrop>, d: TimedDrop, now: int, matches: Keywords) {
    BaseEarn(drops, d, matches) && d.startsAt <= now < d.endsAt
  }

  ghost predicate EarnableWithin(drops: seq<TimedDrop>, d: TimedDrop, now: int, stamp: int, matches: Keywords) {
    BaseEarn(drops, d, matches) && now < d.endsAt && d.startsAt < stamp
  }

  predicate ChannelFits(c: Campaign, ch: Channel) {
    && (|c.allowed| > 0 ==> exists a :: a in c.allowed && (a.id == ch.id || a.login == ch.login))
    && (!IsSpecial(c.game) ==> ch.game.Some? && ch.game.value.id == c.game.id)
  }

  predicate CampaignLevel(c: Campaign, now: int, ch: Option<Channel>) {
    c.linked && Active(c, now) && (ch.Some? ==> ChannelFits(c, ch.value))
  }

  // Drop i of the campaign is earnable on the channel.
  ghost predicate Earnable(c: Campaign, i: nat, now: int, ch: Option<Channel>, matches: Keywords)
    requires i < |c.drops|
  {
    CampaignLevel(c, now, ch) && EarnableAt(c.drops, c.drops[i], now, matches)
  }

  ghost predicate CanEarn(c: Campaign, now: int, ch: Option<Channel>, matches: Keywords) {
    exists i :: 0 <= i < |c.drops| && Earnable(c, i, now, ch, matches)
  }

  ghost predicate WindowLevel(c: Campaign, now: int, stamp: int) {
    c.linked && c.valid && now < c.endsAt && c.startsAt < stamp
  }

  ghost predicate CanEarnWithin(c: Campaign, now: int, stamp: int, matches: Keywords) {
    WindowLevel(c, now, stamp) &&
    exists i :: 0 <= i < |c.drops| && EarnableWithin(c.drops, c.drops[i], now, stamp, matches)
  }

  method BaseEarnConditions(drops: seq<TimedDrop>, d: TimedDrop, chain: set<string>, matches: Keywords)
    returns (ok: bool)
    requires forall id :: id in chain <==> InChain(drops, id)
    ensures ok <==> BaseEarn(drops, d, matches)
  {
    var met := DropPreconditionsMet(drops, d);
    if !met || d.isClaimed || d.required <= 0 {
      return false;
    }
    if ExcludedByKeyword(d, matches) {
      return false;
    }
    if |d.benefits| > 0 {
      return true;
    }
    return d.id in chain;
  }

  // The pointer the source returns is the index of the element it points to.
  method FirstEarnableDrop(c: Campaign, now: int, ch: Option<Channel>, matches: Keywords)
    returns (r: Option<nat>)
    ensures IsFirstEarnable(c, now, ch, matches, r)
    ensures r == FirstEarnable(c, now, ch, matches)
  {
    if !CampaignLevel(c, now, ch) {
      return None;
    }
    var chain := PreconditionsChain(c.drops);
    for i := 0 to |c.drops|
      invariant forall k :: 0 <= k < i ==> !Earnable(c, k, now, ch, matches)
    {
      var d := c.drops[i];
      var base := BaseEarnConditions(c.drops, d, chain, matches);
      if base && d.startsAt <= now && now < d.endsAt {
        return Some(i);
      }
    }
    return None;
  }

  // r is the least earnable index, or None when no drop is earnable.
  ghost predicate IsFirstEarnable(c: Campaign, now: int, ch: Option<Channel>, matches: Keywords, r: Option<nat>) {
    match r
    case Some(i) =>
      && i < |c.drops|
      && Earnable(c, i, now, ch, matches)
      && forall k :: 0 <= k < i ==> !Earnable(c, k, now, ch, matches)
    case None => !CanEarn(c, now, ch, matches)
  }

  ghost function FirstEarnable(c: Campaign, now: int, ch: Option<Channel>, matches: Keywords): (r: Option<nat>)
    ensures IsFirstEarnable(c, now, ch, matches, r)
  {
    FirstEarnableFrom(c, 0, now, ch, matches)
  }

  ghost function FirstEarnableFrom(c: Campaign, i: nat, now: int, ch: Option<Channel>, matches: Keywords)
    : (r: Option<nat>)
    requires i <= |c.drops|
    requires forall k :: 0 <= k < i ==> !Earnable(c, k, now, ch, matches)
    ensures IsFirstEarnable(c, now, ch, matches, r)
    decreases |c.drops| - i
  {
    if i == |c.drops| then None
    else if Earnable(c, i, now, ch, matches) then Some(i)
    else FirstEarnableFrom(c, i + 1, now, ch, matches)
  }

  method CanEarnNow(c: Campaign, now: int, ch: Option<Channel>, matches: Keywords) returns (ok: bool)
    ensures ok <==> CanEarn(c, now, ch, matches)
  {
    if !CampaignLevel(c, now, ch) {
      return false;
    }
    var chain := PreconditionsChain(c.drops);
    for i := 0 to |c.drops|
      invariant forall k :: 0 <= k < i ==> !Earnable(c, k, now, ch, matches)
    {
      var d := c.drops[i];
      var base := BaseEarnConditions(c.drops, d, chain, matches);
      if base && d.startsAt <= now && now < d.endsAt {
        assert Earnable(c, i, now, ch, matches);
        return true;
      }
    }
    return false;
  }

  method CanEarnBefore(c: Campaign, now: int, stamp: int, matches: Keywords) returns (ok: bool)
    ensures ok <==> CanEarnWithin(c, now, stamp, matches)
  {
    if !c.linked || !c.valid || !(c.endsAt > now) || !(c.startsAt < stamp) {
      return false;
    }
    var chain := PreconditionsChain(c.drops);
    for i := 0 to |c.drops|
      invariant forall k :: 0 <= k < i ==> !EarnableWithin(c.drops, c.drops[k], now, stamp, matches)
    {
      var d := c.drops[i];
      var base := BaseEarnConditions(c.drops, d, chain, matches);
      if base && d.endsAt > now && d.startsAt < stamp {
        assert EarnableWithin(c.drops, d, now, stamp, matches);
        return true;
      }
    }
    return false;
  }

  // ------------------------------------------------------------------
  // Readiness shown to the operator
  // ------------------------------------------------------------------

  datatype Readiness = Claimed | Excluded | BlockedBy(what: string) | Ready

  // PreconditionStatus looks drops up in a map built by ID, where a later drop
  // replaces an earlier one with the same ID.
  method PreconditionStatus(drops: seq<TimedDrop>, d: TimedDrop, matches: Keywords) returns (s: Readiness)
    ensures s == StatusOf(drops, d, matches)
  {
    if d.isClaimed {
      return Claimed;
    }
    if ExcludedByKeyword(d, matches) {
      return Excluded;
    }
    var byId: map<string, TimedDrop> := map[];
    for k := 0 to |drops|
      invariant byId == ById(drops[..k])
    {
      byId := byId[drops[k].id := drops[k]];
      assert drops[..k + 1][..k] == drops[..k];
    }
    assert drops[..|drops|] == drops;
    for j := 0 to |d.preconditions|
      invariant FirstUnmet(byId, d.preconditions) == FirstUnmet(byId, d.preconditions[j..])
    {
      var pid := d.preconditions[j];
      assert d.preconditions[j..][1..] == d.preconditions[j + 1..];
      if pid in byId && byId[pid].isClaimed {
        continue;
      }
      if pid in byId {
        return BlockedBy(byId[pid].name);
      }
      return BlockedBy(pid);
    }
    return Ready;
  }

  function ById(drops: seq<TimedDrop>): map<string, TimedDrop> {
    if drops == [] then map[]
    else ById(drops[..|drops| - 1])[drops[|drops| - 1].id := drops[|drops| - 1]]
  }

  function FirstUnmet(byId: map<string, TimedDrop>, pids: seq<string>): (r: Readiness)
    ensures r == Ready || r.BlockedBy?
  {
    if pids == [] then Ready
    else if pids[0] in byId && byId[pids[0]].isClaimed then FirstUnmet(byId, pids[1..])
    else if pids[0] in byId then BlockedBy(byId[pids[0]].name)
    else BlockedBy(pids[0])
  }

  function StatusOf(drops: seq<TimedDrop>, d: TimedDrop, matches: Keywords): Readiness {
    if d.isClaimed then Claimed
    else if ExcludedByKeyword(d, matches) then Excluded
    else FirstUnmet(ById(drops), d.preconditions)
  }
}
