// The operator's execution queue (cmd/tdm/queue.go) and its agreement with the selector.
module Queue {
  import opened Common
  import opened Inventory
  import opened Earnability
  import opened Ranking

  datatype QueueEntry = QueueEntry(
    game: string, campaign: string, drop: string, current: int, required: int,
    remaining: nat, status: Readiness, endsAt: int)

  function EntryOf(c: Campaign, d: TimedDrop, matches: Keywords): QueueEntry {
    QueueEntry(c.game.name, c.name, d.name, d.current, d.required, d.Remaining(),
               StatusOf(c.drops, d, matches), c.endsAt)
  }

  function EntriesOf(c: Campaign, matches: Keywords): (r: seq<QueueEntry>)
    ensures |r| == |c.drops|
  {
    seq(|c.drops|, i requires 0 <= i < |c.drops| => EntryOf(c, c.drops[i], matches))
  }

  function Flatten(cs: seq<Campaign>, matches: Keywords): seq<QueueEntry> {
    if cs == [] then [] else Flatten(cs[..|cs| - 1], matches) + EntriesOf(cs[|cs| - 1], matches)
  }

  // The number of entries before those of campaign k.
  function Offset(cs: seq<Campaign>, k: nat): nat
    requires k <= |cs|
  {
    if k == 0 then 0 else Offset(cs, k - 1) + |cs[k - 1].drops|
  }

  predicate InQueue(c: Campaign, exclude: seq<string>, now: int, badges: bool) {
    Eligible(c, badges) && c.game.name !in exclude && Active(c, now)
  }

  function Queued(exclude: seq<string>, now: int, badges: bool): Campaign -> bool {
    c => InQueue(c, exclude, now, badges)
  }

  function EligibleFor(badges: bool): Campaign -> bool {
    c => Eligible(c, badges)
  }

  function IneligibleFor(badges: bool): Campaign -> bool {
    c => !Eligible(c, badges)
  }

  datatype SkipReason = Unlinked | BadgeOrEmote

  datatype Skipped = Skipped(campaign: Campaign, reason: SkipReason)

  function ReasonFor(c: Campaign): SkipReason {
    if HasBadgeOrEmote(c) then BadgeOrEmote else Unlinked
  }

  function Reasons(cs: seq<Campaign>): (r: seq<Skipped>)
    ensures |r| == |cs|
  {
    seq(|cs|, i requires 0 <= i < |cs| => Skipped(cs[i], ReasonFor(cs[i])))
  }

  method SplitEligible(campaigns: seq<Campaign>, badges: bool) returns (eligible: seq<Campaign>, skipped: seq<Skipped>)
    ensures eligible == Filter(campaigns, EligibleFor(badges))
    ensures skipped == Reasons(Filter(campaigns, IneligibleFor(badges)))
  {
    eligible, skipped := [], [];
    for k := 0 to |campaigns|
      invariant eligible == Filter(campaigns[..k], EligibleFor(badges))
      invariant skipped == Reasons(Filter(campaigns[..k], IneligibleFor(badges)))
    {
      SplitStep(campaigns, k, badges);
      if Eligible(campaigns[k], badges) {
        eligible := eligible + [campaigns[k]];
        continue;
      }
      var reason := Unlinked;
      if HasBadgeOrEmote(campaigns[k]) {
        reason := BadgeOrEmote;
      }
      skipped := skipped + [Skipped(campaigns[k], reason)];
    }
    assert campaigns[..|campaigns|] == campaigns;
  }

  lemma SplitStep(campaigns: seq<Campaign>, k: nat, badges: bool)
    requires k < |campaigns|
    ensures Filter(campaigns[..k + 1], EligibleFor(badges)) ==
            Filter(campaigns[..k], EligibleFor(badges)) + if Eligible(campaigns[k], badges) then [campaigns[k]] else []
    ensures var before := Filter(campaigns[..k], IneligibleFor(badges));
            Reasons(Filter(campaigns[..k + 1], IneligibleFor(badges))) ==
            Reasons(before) +
              if Eligible(campaigns[k], badges) then [] else [Skipped(campaigns[k], ReasonFor(campaigns[k]))]
  {
    FilterStep(campaigns, k, EligibleFor(badges));
    FilterStep(campaigns, k, IneligibleFor(badges));
    ReasonsSnoc(Filter(campaigns[..k], IneligibleFor(badges)), campaigns[k]);
  }

  lemma ReasonsSnoc(cs: seq<Campaign>, c: Campaign)
    ensures Reasons(cs + [c]) == Reasons(cs) + [Skipped(c, ReasonFor(c))]
  {
  }

  // The reason names what keeps the campaign out: fixing it lets the campaign in, and
  // fixing the other thing does not.
  lemma ReasonIsTheCause(c: Campaign, badges: bool)
    requires !Eligible(c, badges)
    ensures ReasonFor(c) == Unlinked ==>
              !c.linked && Eligible(c.(linked := true), badges) && !Eligible(c, !badges)
    ensures ReasonFor(c) == BadgeOrEmote ==>
              !badges && Eligible(c, true) && !Eligible(c.(linked := true), badges)
  {
    assert HasBadgeOrEmote(c.(linked := true)) <==> HasBadgeOrEmote(c) by {
      assert c.(linked := true).drops == c.drops;
    }
  }

  function Running(exclude: seq<string>, now: int): Campaign -> bool {
    (c: Campaign) => c.game.name !in exclude && Active(c, now)
  }

  // The campaigns of the queue, before ranking.
  method RunningCampaigns(campaigns: seq<Campaign>, exclude: seq<string>, badges: bool, now: int)
    returns (active: seq<Campaign>)
    ensures active == Filter(campaigns, Queued(exclude, now, badges))
  {
    var eligible, _ := SplitEligible(campaigns, badges);
    var excluded := ExcludeSet(exclude);
    active := [];
    for k := 0 to |eligible|
      invariant active == Filter(eligible[..k], Running(exclude, now))
    {
      FilterStep(eligible, k, Running(exclude, now));
      if eligible[k].game.name in excluded {
        continue;
      }
      if !Active(eligible[k], now) {
        continue;
      }
      active := active + [eligible[k]];
    }
    assert eligible[..|eligible|] == eligible;
    RunningEligible(campaigns, exclude, now, badges);
  }

  lemma RunningEligible(campaigns: seq<Campaign>, exclude: seq<string>, now: int, badges: bool)
    ensures Filter(Filter(campaigns, EligibleFor(badges)), Running(exclude, now)) ==
            Filter(campaigns, Queued(exclude, now, badges))
  {
    FilterBoth(campaigns, EligibleFor(badges), Running(exclude, now), Queued(exclude, now, badges));
  }

  method BuildQueue(campaigns: seq<Campaign>, priority: seq<string>, exclude: seq<string>, matches: Keywords,
                    badges: bool, now: int)
    returns (entries: seq<QueueEntry>)
    ensures entries == Flatten(Ranked(Filter(campaigns, Queued(exclude, now, badges)), priority), matches)
  {
    var active := RunningCampaigns(campaigns, exclude, badges, now);
    var ranked := SortByPriority(active, priority);
    entries := [];
    for k := 0 to |ranked|
      invariant entries == Flatten(ranked[..k], matches)
    {
      var c := ranked[k];
      ghost var before := entries;
      for i := 0 to |c.drops|
        invariant entries == before + EntriesOf(c, matches)[..i]
      {
        var d := c.drops[i];
        var status := PreconditionStatus(c.drops, d, matches);
        var entry := QueueEntry(c.game.name, c.name, d.name, d.current, d.required, d.Remaining(), status, c.endsAt);
        EntryStep(c, matches, i, entry);
        entries := entries + [entry];
      }
      assert ranked[..k + 1][..k] == ranked[..k];
    }
    assert ranked[..|ranked|] == ranked;
  }

  lemma EntryStep(c: Campaign, matches: Keywords, i: nat, entry: QueueEntry)
    requires i < |c.drops| && entry == EntryOf(c, c.drops[i], matches)
    ensures EntriesOf(c, matches)[..i + 1] == EntriesOf(c, matches)[..i] + [entry]
  {
  }

  // Entry Offset(k) + i of the queue shows drop i of the k-th ranked campaign.
  lemma {:induction false} EntryAt(cs: seq<Campaign>, k: nat, i: nat, matches: Keywords)
    requires k < |cs| && i < |cs[k].drops|
    ensures Offset(cs, k) + i < |Flatten(cs, matches)|
    ensures Flatten(cs, matches)[Offset(cs, k) + i] == EntryOf(cs[k], cs[k].drops[i], matches)
  {
    var n := |cs| - 1;
    OffsetPrefix(cs, n, k);
    if k < n {
      EntryAt(cs[..n], k, i, matches);
    } else {
      LastEntries(cs, i, matches);
    }
  }

  lemma LastEntries(cs: seq<Campaign>, i: nat, matches: Keywords)
    requires cs != [] && i < |cs[|cs| - 1].drops|
    ensures var n := |cs| - 1;
            && Offset(cs, n) + i < |Flatten(cs, matches)|
            && Flatten(cs, matches)[Offset(cs, n) + i] == EntryOf(cs[n], cs[n].drops[i], matches)
  {
    var n := |cs| - 1;
    FlattenLength(cs[..n], matches);
    OffsetPrefix(cs, n, n);
    assert EntriesOf(cs[n], matches)[i] == EntryOf(cs[n], cs[n].drops[i], matches);
  }

  lemma {:induction false} OffsetPrefix(cs: seq<Campaign>, n: nat, k: nat)
    requires k <= n <= |cs|
    ensures Offset(cs[..n], k) == Offset(cs, k)
  {
    if k > 0 {
      OffsetPrefix(cs, n, k - 1);
    }
  }

  lemma {:induction false} FlattenLength(cs: seq<Campaign>, matches: Keywords)
    ensures |Flatten(cs, matches)| == Offset(cs, |cs|)
  {
    if cs != [] {
      var n := |cs| - 1;
      FlattenLength(cs[..n], matches);
      OffsetPrefix(cs, n, n);
    }
  }

  // What the entry of drop i of the k-th campaign shows.
  lemma EntryExact(cs: seq<Campaign>, k: nat, i: nat, matches: Keywords)
    requires k < |cs| && i < |cs[k].drops|
    ensures Offset(cs, k) + i < |Flatten(cs, matches)|
    ensures var c, d, entry := cs[k], cs[k].drops[i], Flatten(cs, matches)[Offset(cs, k) + i];
            && entry.game == c.game.name && entry.campaign == c.name && entry.drop == d.name && entry.endsAt == c.endsAt
            && entry.current == d.current && entry.required == d.required
            && entry.remaining == (if d.current < d.required then d.required - d.current else 0)
            && entry.status == StatusOf(c.drops, d, matches)
  {
    EntryAt(cs, k, i, matches);
  }

  // The campaigns in the queue: those the badge setting or the link lets in, of games
  // not excluded, and running.
  lemma InQueueExact(c: Campaign, exclude: seq<string>, now: int, badges: bool)
    ensures InQueue(c, exclude, now, badges) <==>
            && (if exists d, b :: d in c.drops && b in d.benefits && (b.kind == Badge || b.kind == Emote)
                then badges else c.linked)
            && c.game.name !in exclude && c.valid && c.startsAt <= now < c.endsAt
  {
    EligibleExact(c, badges);
  }

  ghost function Within(now: int, matches: Keywords): Campaign -> bool {
    c => CanEarnWithin(c, now, now + HOUR, matches)
  }

  lemma FirstCons(x: Campaign, s: seq<Campaign>, p: Campaign -> bool, r: Campaign)
    requires IsFirst(s, p, Some(r)) && !p(x)
    ensures IsFirst([x] + s, p, Some(r))
  {
    var k := PositionOf(s, p, r);
    assert ([x] + s)[k + 1] == r;
  }

  lemma FirstTail(s: seq<Campaign>, p: Campaign -> bool, r: Campaign)
    requires s != [] && IsFirst(s, p, Some(r)) && !p(s[0])
    ensures IsFirst(s[1..], p, Some(r))
  {
    var k := PositionOf(s, p, r);
    assert s[1..][k - 1] == r;
  }

  // The first match survives dropping elements that do not matter to it.
  lemma {:induction false} FirstSurvivesFilter(s: seq<Campaign>, p: Campaign -> bool, q: Campaign -> bool, r: Campaign)
    requires IsFirst(s, p, Some(r)) && q(r)
    ensures IsFirst(Filter(s, q), p, Some(r))
  {
    var k := PositionOf(s, p, r);
    if p(s[0]) {
      assert Filter(s, q)[0] == r;
    } else {
      FirstTail(s, p, r);
      FirstSurvivesFilter(s[1..], p, q, r);
      if q(s[0]) {
        FirstCons(s[0], Filter(s[1..], q), p, r);
      }
    }
  }

  // The campaign the selector picks is the first campaign of the queue's own
  // ranking that can be earned within the hour, exactly when it is running now.
  lemma QueueAgreesWithSelector(campaigns: seq<Campaign>, priority: seq<string>, exclude: seq<string>,
                                matches: Keywords, badges: bool, now: int, c: Campaign)
    requires IsFirst(Ranked(Filter(campaigns, EligibleFor(badges)), priority),
                     Qualifier(exclude, now, badges, matches), Some(c))
    ensures IsFirst(Ranked(Filter(campaigns, Queued(exclude, now, badges)), priority), Within(now, matches), Some(c))
            <==> Active(c, now)
  {
    if Active(c, now) {
      RunningSelectionLeadsQueue(campaigns, priority, exclude, matches, badges, now, c);
    } else {
      var q := Queued(exclude, now, badges);
      RankingCommutesWithFilter(campaigns, q, priority);
      FilterMember(Ranked(campaigns, priority), q, c);
    }
  }

  lemma RunningSelectionLeadsQueue(campaigns: seq<Campaign>, priority: seq<string>, exclude: seq<string>,
                                   matches: Keywords, badges: bool, now: int, c: Campaign)
    requires IsFirst(Ranked(Filter(campaigns, EligibleFor(badges)), priority),
                     Qualifier(exclude, now, badges, matches), Some(c))
    requires Active(c, now)
    ensures IsFirst(Ranked(Filter(campaigns, Queued(exclude, now, badges)), priority), Within(now, matches), Some(c))
  {
    var eligible := Filter(campaigns, EligibleFor(badges));
    var ranked := Ranked(eligible, priority);
    var p, q := Qualifier(exclude, now, badges, matches), Queued(exclude, now, badges);
    FirstSurvivesFilter(ranked, p, q, c);
    RankingCommutesWithFilter(eligible, q, priority);
    FilterBoth(campaigns, EligibleFor(badges), q, q);
    QueuedQualify(ranked, exclude, now, badges, matches);
    SameFirst(Filter(ranked, q), p, Within(now, matches), c);
  }

  // On queued campaigns qualifying is being earnable within the hour.
  lemma QueuedQualify(ranked: seq<Campaign>, exclude: seq<string>, now: int, badges: bool, matches: Keywords)
    ensures forall x :: x in Filter(ranked, Queued(exclude, now, badges)) ==>
              (Qualifier(exclude, now, badges, matches)(x) <==> Within(now, matches)(x))
  {
  }

  lemma SameFirst(s: seq<Campaign>, p: Campaign -> bool, q: Campaign -> bool, c: Campaign)
    requires IsFirst(s, p, Some(c))
    requires forall x :: x in s ==> (p(x) <==> q(x))
    ensures IsFirst(s, q, Some(c))
  {
    var k := PositionOf(s, p, c);
    assert forall j :: 0 <= j <= k ==> s[j] in s;
  }

  // The entry of an earnable drop reads Ready.
  lemma EarnableEntryIsReady(cs: seq<Campaign>, k: nat, i: nat, now: int, ch: Option<Channel>, matches: Keywords)
    requires k < |cs| && i < |cs[k].drops| && DistinctIds(cs[k].drops)
    requires Earnable(cs[k], i, now, ch, matches)
    ensures Offset(cs, k) + i < |Flatten(cs, matches)|
    ensures var entry := Flatten(cs, matches)[Offset(cs, k) + i];
            entry == EntryOf(cs[k], cs[k].drops[i], matches) && entry.status == Ready
  {
    EntryAt(cs, k, i, matches);
    ReadyExact(cs[k].drops, cs[k].drops[i], matches);
  }

  // The drop a session would start with on the selected campaign is shown as
  // Ready, at its place in the queue.
  lemma FirstDropIsReady(campaigns: seq<Campaign>, priority: seq<string>, exclude: seq<string>, matches: Keywords,
                         badges: bool, now: int, c: Campaign, ch: Option<Channel>, i: nat)
    returns (k: nat)
    requires IsFirst(Ranked(Filter(campaigns, EligibleFor(badges)), priority),
                     Qualifier(exclude, now, badges, matches), Some(c))
    requires DistinctIds(c.drops)
    requires FirstEarnable(c, now, ch, matches) == Some(i)
    ensures i < |c.drops|
    ensures var queue := Ranked(Filter(campaigns, Queued(exclude, now, badges)), priority);
            k < |queue| && queue[k] == c && Offset(queue, k) + i < |Flatten(queue, matches)| &&
            Flatten(queue, matches)[Offset(queue, k) + i] == EntryOf(c, c.drops[i], matches) &&
            EntryOf(c, c.drops[i], matches).status == Ready
  {
    FirstIsEarnable(c, now, ch, matches, i);
    QueueAgreesWithSelector(campaigns, priority, exclude, matches, badges, now, c);
    var queue := Ranked(Filter(campaigns, Queued(exclude, now, badges)), priority);
    k := PositionOf(queue, Within(now, matches), c);
    EarnableEntryIsReady(queue, k, i, now, ch, matches);
  }

  lemma FirstIsEarnable(c: Campaign, now: int, ch: Option<Channel>, matches: Keywords, i: nat)
    requires FirstEarnable(c, now, ch, matches) == Some(i)
    ensures i < |c.drops| && Earnable(c, i, now, ch, matches) && Active(c, now)
  {
  }

  lemma PositionOf(s: seq<Campaign>, p: Campaign -> bool, c: Campaign) returns (k: nat)
    requires IsFirst(s, p, Some(c))
    ensures k < |s| && s[k] == c && p(c) && forall j :: 0 <= j < k ==> !p(s[j])
  {
    k :| 0 <= k < |s| && s[k] == c && p(c) && forall j :: 0 <= j < k ==> !p(s[j]);
  }

  // ------------------------------------------------------------------
  // Where the two views part
  // ------------------------------------------------------------------

  // An entry that reads Ready shows an earnable drop exactly when the account is
  // linked, the drop asks for minutes, it carries a reward or unlocks a drop, and it is open.
  lemma ReadyEntryIsEarnable(c: Campaign, i: nat, now: int, matches: Keywords)
    requires i < |c.drops| && DistinctIds(c.drops) && Active(c, now)
    requires EntryOf(c, c.drops[i], matches).status == Ready
    ensures var d := c.drops[i];
            Earnable(c, i, now, None, matches) <==>
            c.linked && d.required > 0 && (|d.benefits| > 0 || InChain(c.drops, d.id)) && d.startsAt <= now < d.endsAt
  {
    ReadyExact(c.drops, c.drops[i], matches);
  }

  // Whatever the setting, the selector picks linked campaigns only.
  lemma SelectedIsLinked(campaigns: seq<Campaign>, priority: seq<string>, exclude: seq<string>, now: int,
                         badges: bool, matches: Keywords, c: Campaign)
    requires IsFirst(Ranked(campaigns, priority), Qualifier(exclude, now, badges, matches), Some(c))
    ensures c.linked
  {
    EarnableIsLinked(c, now, now + HOUR, None, matches);
  }

  // The queue holds unlinked campaigns exactly where the setting is on and there is a badge or emote.
  lemma QueuedUnlinked(c: Campaign, exclude: seq<string>, now: int, badges: bool)
    requires !c.linked
    ensures InQueue(c, exclude, now, badges) <==>
            badges && HasBadgeOrEmote(c) && c.game.name !in exclude && Active(c, now)
  {
    EligibleUnlinked(c, badges);
  }

  // So the queue can show a drop as Ready that no session will ever start on.
  lemma ReadyButUnlinked()
    ensures var c := BadgeCampaign();
            && Flatten(Ranked(Filter([c], Queued([], 0, true)), []), NO_KEYWORDS) == [EntryOf(c, c.drops[0], NO_KEYWORDS)]
            && EntryOf(c, c.drops[0], NO_KEYWORDS).status == Ready
            && forall now, ch :: !CanEarn(c, now, ch, NO_KEYWORDS)
  {
    var c := BadgeCampaign();
    BadgeCampaignIsEligible();
    assert Filter([c], Queued([], 0, true)) == [c];
    assert Ranked([c], []) == Insert([], c, []);
    assert Flatten([c], NO_KEYWORDS) == [] + EntriesOf(c, NO_KEYWORDS);
  }
}
