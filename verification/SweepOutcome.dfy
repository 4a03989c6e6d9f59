// What one sweep asks for and what comes of it, drop by drop
// (internal/inventory/claim.go:143-197).
module SweepOutcome {
  import opened Common
  import opened Inventory
  import opened Claiming
  import opened Sweep

  // What makes a sweep ask for a drop, cooldowns apart: its campaign has begun, or
  // is not valid, and its game is not excluded; the drop has a claim ID, is
  // unclaimed, matches no keyword, and its campaign ended less than a day ago.
  predicate Wanted(c: Campaign, d: TimedDrop, o: Options) {
    && (c.valid ==> c.startsAt <= o.now)
    && c.game.name !in o.exclude
    && d.claimId != "" && !d.isClaimed && o.now - c.endsAt < 86400
    && !o.matches(d.name) && forall b :: b in d.benefits ==> !o.matches(b.name)
  }

  predicate Earlier(i: nat, j: nat, i': nat, j': nat) {
    i < i' || (i == i' && j < j')
  }

  // From entry n on, the log has a request for drop j of campaign i.
  predicate Asked(log: seq<Request>, n: nat, i: nat, j: nat) {
    exists k :: n <= k < |log| && log[k].i == i && log[k].j == j
  }

  predicate Won(log: seq<Request>, n: nat, i: nat, j: nat) {
    exists k :: n <= k < |log| && log[k].i == i && log[k].j == j && log[k].result == Granted
  }

  // An earlier drop of this ID came back not linked.
  predicate UnlinkedBefore(log: seq<Request>, n: nat, id: string, i: nat, j: nat) {
    exists k :: n <= k < |log| && Earlier(log[k].i, log[k].j, i, j) && log[k].id == id && log[k].result == NotLinked
  }

  // Whether the ID is cooling down when the sweep reaches the drop.
  predicate CoolsWhenReached(cache: map<string, int>, log: seq<Request>, n: nat, o: Options, id: string, i: nat, j: nat) {
    o.useCache &&
    if UnlinkedBefore(log, n, id, i, j) then o.cooldown > 0 else id in cache && o.now < cache[id]
  }

  predicate InBounds(cs: seq<Campaign>, i: nat, j: nat) {
    i < |cs| && j < |cs[i].drops|
  }

  // ------------------------------------------------------------------
  // The four parts of the outcome, for the drops before (i, j)
  // ------------------------------------------------------------------

  // The requests of the sweep: each for a drop before (i, j), in order, with the
  // server's own answer to it.
  ghost predicate RequestsOk(cs: seq<Campaign>, log: seq<Request>, n: nat, o: Options, server: Server, i: nat, j: nat) {
    && (forall k :: n <= k < |log| ==>
          && InBounds(cs, log[k].i, log[k].j) && Earlier(log[k].i, log[k].j, i, j)
          && log[k] == Request(log[k].i, log[k].j, cs[log[k].i].drops[log[k].j].id, o.now, Judge(server(k)),
                               o.now + o.cooldown))
    && (forall k, m :: n <= k < m < |log| ==> Earlier(log[k].i, log[k].j, log[m].i, log[m].j))
  }

  // Exactly the wanted drops that are not cooling have been asked for.
  ghost predicate AskedOk(cs: seq<Campaign>, cache: map<string, int>, log: seq<Request>, n: nat, o: Options, i: nat, j: nat) {
    forall i': nat, j': nat :: InBounds(cs, i', j') && Earlier(i', j', i, j) ==>
      (Asked(log, n, i', j') <==>
       Wanted(cs[i'], cs[i'].drops[j'], o) && !CoolsWhenReached(cache, log, n, o, cs[i'].drops[j'].id, i', j'))
  }

  // A drop is claimed if its own request was granted, and otherwise as it was.
  ghost predicate DropsOk(cs: seq<Campaign>, cs': seq<Campaign>, log: seq<Request>, n: nat) {
    && |cs| == |cs'|
    && (forall i :: 0 <= i < |cs| ==> |cs[i].drops| == |cs'[i].drops| && cs'[i] == cs[i].(drops := cs'[i].drops))
    && forall i: nat, j: nat :: InBounds(cs, i, j) ==>
         cs'[i].drops[j] ==
           if Won(log, n, i, j) then cs[i].drops[j].(isClaimed := true, current := cs[i].drops[j].required)
           else cs[i].drops[j]
  }

  predicate UnlinkedIn(log: seq<Request>, n: nat, id: string) {
    exists k :: n <= k < |log| && log[k].id == id && log[k].result == NotLinked
  }

  // IDs that came back not linked are cached for the cooldown, the others as before.
  ghost predicate CacheOk(cache: map<string, int>, cache': map<string, int>, log: seq<Request>, n: nat, o: Options) {
    forall id: string ::
      if o.useCache && UnlinkedIn(log, n, id) then id in cache' && cache'[id] == o.now + o.cooldown
      else (id in cache' <==> id in cache) && (id in cache ==> cache'[id] == cache[id])
  }

  function Results(log: seq<Request>, n: nat, result: ClaimResult): nat
    requires n <= |log|
  {
    Count(log[n..], (r: Request) => r.result == result)
  }

  // What a sweep that has dealt with the drops before (i, j) has made of st.
  ghost predicate Swept(st: State, r: State, o: Options, server: Server, i: nat, j: nat) {
    && st.log <= r.log
    && RequestsOk(st.campaigns, r.log, |st.log|, o, server, i, j)
    && AskedOk(st.campaigns, st.cache, r.log, |st.log|, o, i, j)
    && DropsOk(st.campaigns, r.campaigns, r.log, |st.log|)
    && CacheOk(st.cache, r.cache, r.log, |st.log|, o)
    && r.claimed == st.claimed + Results(r.log, |st.log|, Granted)
    && r.errors == st.errors + Results(r.log, |st.log|, ClaimError)
  }

  // ------------------------------------------------------------------
  // One more request
  // ------------------------------------------------------------------

  // The log with a request for drop (i, j) added.
  function Extended(cs: seq<Campaign>, log: seq<Request>, o: Options, server: Server, i: nat, j: nat): seq<Request>
    requires InBounds(cs, i, j)
  {
    log + [Request(i, j, cs[i].drops[j].id, o.now, Judge(server(|log|)), o.now + o.cooldown)]
  }

  lemma EarlierAsBefore(cs: seq<Campaign>, log: seq<Request>, n: nat, o: Options, server: Server, i: nat, j: nat,
                        id: string, i': nat, j': nat)
    requires InBounds(cs, i, j) && n <= |log| && !Earlier(i, j, i', j')
    ensures var more := Extended(cs, log, o, server, i, j);
            && (UnlinkedBefore(more, n, id, i', j') <==> UnlinkedBefore(log, n, id, i', j'))
            && (i' != i || j' != j ==> (Asked(more, n, i', j') <==> Asked(log, n, i', j')))
  {
    var more := Extended(cs, log, o, server, i, j);
    assert forall k :: 0 <= k < |log| ==> more[k] == log[k];
    if k :| n <= k < |log| && log[k].i == i' && log[k].j == j' {
      assert more[k].i == i' && more[k].j == j';
    }
    if k :| n <= k < |log| && Earlier(log[k].i, log[k].j, i', j') && log[k].id == id && log[k].result == NotLinked {
      assert Earlier(more[k].i, more[k].j, i', j') && more[k].id == id && more[k].result == NotLinked;
    }
  }

  lemma RequestsExtend(cs: seq<Campaign>, log: seq<Request>, n: nat, o: Options, server: Server, i: nat, j: nat)
    requires InBounds(cs, i, j) && n <= |log| && RequestsOk(cs, log, n, o, server, i, j)
    ensures RequestsOk(cs, Extended(cs, log, o, server, i, j), n, o, server, i, j + 1)
  {
  }

  lemma RequestsStay(cs: seq<Campaign>, log: seq<Request>, n: nat, o: Options, server: Server, i: nat, j: nat, i': nat, j': nat)
    requires RequestsOk(cs, log, n, o, server, i, j) && (Earlier(i, j, i', j') || (i == i' && j == j'))
    ensures RequestsOk(cs, log, n, o, server, i', j')
  {
  }

  // When the drop (i, j) is reached, cooling down is what the cache says.
  lemma CoolsNow(cs: seq<Campaign>, cache: map<string, int>, cache': map<string, int>, log: seq<Request>, n: nat,
                 o: Options, server: Server, i: nat, j: nat)
    requires InBounds(cs, i, j) && RequestsOk(cs, log, n, o, server, i, j) && CacheOk(cache, cache', log, n, o)
    ensures var id := cs[i].drops[j].id;
            CoolsWhenReached(cache, log, n, o, id, i, j) <==> Cooling(cache', id, o)
  {
    var id := cs[i].drops[j].id;
    if k :| n <= k < |log| && log[k].id == id && log[k].result == NotLinked {
      assert Earlier(log[k].i, log[k].j, i, j);
      assert UnlinkedBefore(log, n, id, i, j);
    }
    assert UnlinkedBefore(log, n, id, i, j) <==> UnlinkedIn(log, n, id);
  }

  lemma NotAskedYet(cs: seq<Campaign>, log: seq<Request>, n: nat, o: Options, server: Server, i: nat, j: nat)
    requires RequestsOk(cs, log, n, o, server, i, j)
    ensures forall i': nat, j': nat :: !Earlier(i', j', i, j) ==> !Asked(log, n, i', j') && !Won(log, n, i', j')
  {
  }

  lemma AskedExtend(cs: seq<Campaign>, cache: map<string, int>, log: seq<Request>, n: nat, o: Options, server: Server,
                    i: nat, j: nat)
    requires InBounds(cs, i, j) && n <= |log| && AskedOk(cs, cache, log, n, o, i, j)
    requires Wanted(cs[i], cs[i].drops[j], o) && !CoolsWhenReached(cache, log, n, o, cs[i].drops[j].id, i, j)
    ensures AskedOk(cs, cache, Extended(cs, log, o, server, i, j), n, o, i, j + 1)
  {
    var more := Extended(cs, log, o, server, i, j);
    forall i': nat, j': nat | InBounds(cs, i', j') && Earlier(i', j', i, j + 1)
      ensures Asked(more, n, i', j') <==>
              Wanted(cs[i'], cs[i'].drops[j'], o) && !CoolsWhenReached(cache, more, n, o, cs[i'].drops[j'].id, i', j')
    {
      EarlierAsBefore(cs, log, n, o, server, i, j, cs[i'].drops[j'].id, i', j');
      if i' == i && j' == j {
        assert more[|log|].i == i && more[|log|].j == j;
      }
    }
  }

  // Passing over drops none of which is to be asked for.
  lemma AskedStays(cs: seq<Campaign>, cache: map<string, int>, log: seq<Request>, n: nat, o: Options, server: Server,
                   i: nat, j: nat, i': nat, j': nat)
    requires RequestsOk(cs, log, n, o, server, i, j) && AskedOk(cs, cache, log, n, o, i, j)
    requires forall a: nat, b: nat :: InBounds(cs, a, b) && Earlier(a, b, i', j') && !Earlier(a, b, i, j) ==>
               !Wanted(cs[a], cs[a].drops[b], o) || CoolsWhenReached(cache, log, n, o, cs[a].drops[b].id, a, b)
    ensures AskedOk(cs, cache, log, n, o, i', j')
  {
    NotAskedYet(cs, log, n, o, server, i, j);
  }

  lemma CacheExtend(cs: seq<Campaign>, cache: map<string, int>, cache': map<string, int>, log: seq<Request>, n: nat,
                    o: Options, server: Server, i: nat, j: nat)
    requires InBounds(cs, i, j) && n <= |log| && CacheOk(cache, cache', log, n, o)
    ensures var id := cs[i].drops[j].id;
            CacheOk(cache,
                    if o.useCache && Judge(server(|log|)) == NotLinked then cache'[id := o.now + o.cooldown] else cache',
                    Extended(cs, log, o, server, i, j), n, o)
  {
    var more := Extended(cs, log, o, server, i, j);
    forall id: string
      ensures UnlinkedIn(more, n, id) <==>
              UnlinkedIn(log, n, id) || (id == cs[i].drops[j].id && Judge(server(|log|)) == NotLinked)
    {
      if k :| n <= k < |log| && log[k].id == id && log[k].result == NotLinked {
        assert more[k] == log[k];
      }
      if id == cs[i].drops[j].id && Judge(server(|log|)) == NotLinked {
        assert more[|log|].id == id && more[|log|].result == NotLinked;
      }
    }
  }

  lemma ResultsExtend(cs: seq<Campaign>, log: seq<Request>, n: nat, o: Options, server: Server, i: nat, j: nat, result: ClaimResult)
    requires InBounds(cs, i, j) && n <= |log|
    ensures Results(Extended(cs, log, o, server, i, j), n, result) ==
            Results(log, n, result) + if Judge(server(|log|)) == result then 1 else 0
  {
    var more := Extended(cs, log, o, server, i, j);
    assert more[n..] == log[n..] + [more[|log|]];
    CountAppend(log[n..], [more[|log|]], (r: Request) => r.result == result);
  }

  lemma DropsExtend(cs: seq<Campaign>, cs': seq<Campaign>, log: seq<Request>, n: nat, o: Options, server: Server, i: nat, j: nat)
    requires InBounds(cs, i, j) && n <= |log| && DropsOk(cs, cs', log, n) && !Won(log, n, i, j)
    ensures var d := cs[i].drops[j];
            && cs'[i].drops[j] == d
            && DropsOk(cs,
                       if Judge(server(|log|)) == Granted then WithDrop(cs', i, j, GrantedDrop(d, d.claimId)) else cs',
                       Extended(cs, log, o, server, i, j), n)
  {
    var more := Extended(cs, log, o, server, i, j);
    forall i': nat, j': nat
      ensures Won(more, n, i', j') <==>
              Won(log, n, i', j') || (i' == i && j' == j && Judge(server(|log|)) == Granted)
    {
      if k :| n <= k < |log| && log[k].i == i' && log[k].j == j' && log[k].result == Granted {
        assert more[k] == log[k];
      }
      if i' == i && j' == j && Judge(server(|log|)) == Granted {
        assert more[|log|].i == i' && more[|log|].j == j' && more[|log|].result == Granted;
      }
    }
    DropWon(cs, cs', log, more, n, i, j, Judge(server(|log|)) == Granted);
  }

  lemma DropWon(cs: seq<Campaign>, cs': seq<Campaign>, log: seq<Request>, more: seq<Request>, n: nat, i: nat, j: nat, won: bool)
    requires InBounds(cs, i, j) && DropsOk(cs, cs', log, n) && !Won(log, n, i, j)
    requires forall i': nat, j': nat :: Won(more, n, i', j') <==> Won(log, n, i', j') || (i' == i && j' == j && won)
    ensures var d := cs[i].drops[j];
            InBounds(cs', i, j) && DropsOk(cs, if won then WithDrop(cs', i, j, GrantedDrop(d, d.claimId)) else cs', more, n)
  {
    var d := cs[i].drops[j];
    assert d.(claimId := d.claimId) == d;
    var cs2 := if won then WithDrop(cs', i, j, GrantedDrop(d, d.claimId)) else cs';
    forall a | 0 <= a < |cs|
      ensures |cs[a].drops| == |cs2[a].drops| && cs2[a] == cs[a].(drops := cs2[a].drops)
    {
    }
    forall a: nat, b: nat | InBounds(cs, a, b)
      ensures cs2[a].drops[b] ==
              if Won(more, n, a, b) then cs[a].drops[b].(isClaimed := true, current := cs[a].drops[b].required)
              else cs[a].drops[b]
    {
      if a != i || b != j {
        assert cs2[a].drops[b] == cs'[a].drops[b];
      }
    }
  }

  // ------------------------------------------------------------------
  // The sweep
  // ------------------------------------------------------------------

  lemma WantedExact(c: Campaign, d: TimedDrop, o: Options)
    ensures Wanted(c, d, o) <==> !SkipsCampaign(c, o) && !SkipsDrop(c, d, o)
  {
  }

  lemma SweptDrop(st: State, r: State, o: Options, server: Server, i: nat, j: nat)
    requires InBounds(st.campaigns, i, j) && Swept(st, r, o, server, i, j)
    requires !SkipsCampaign(st.campaigns[i], o)
    ensures InBounds(r.campaigns, i, j) && Swept(st, DropStep(r, i, j, o, server), o, server, i, j + 1)
  {
    var cs, n := st.campaigns, |st.log|;
    var d := cs[i].drops[j];
    NotAskedYet(cs, r.log, n, o, server, i, j);
    assert r.campaigns[i].drops[j] == d;
    CoolsNow(cs, st.cache, r.cache, r.log, n, o, server, i, j);
    WantedExact(cs[i], d, o);
    assert SkipsDrop(r.campaigns[i], d, o) <==> SkipsDrop(cs[i], d, o);
    if SkipsDrop(cs[i], d, o) || Cooling(r.cache, d.id, o) {
      RequestsStay(cs, r.log, n, o, server, i, j, i, j + 1);
      AskedStays(cs, st.cache, r.log, n, o, server, i, j, i, j + 1);
    } else {
      SweptRequest(st, r, o, server, i, j);
      StepIsRequest(cs, r, o, server, i, j);
    }
  }

  // What a request for drop (i, j) makes of r.
  function AfterRequest(cs: seq<Campaign>, r: State, o: Options, server: Server, i: nat, j: nat): State
    requires InBounds(cs, i, j) && InBounds(r.campaigns, i, j)
  {
    var d, result := cs[i].drops[j], Judge(server(|r.log|));
    State(if result == Granted then WithDrop(r.campaigns, i, j, GrantedDrop(d, d.claimId)) else r.campaigns,
          if o.useCache && result == NotLinked then r.cache[d.id := o.now + o.cooldown] else r.cache,
          r.claimed + if result == Granted then 1 else 0,
          r.errors + if result == ClaimError then 1 else 0,
          Extended(cs, r.log, o, server, i, j))
  }

  lemma StepIsRequest(cs: seq<Campaign>, r: State, o: Options, server: Server, i: nat, j: nat)
    requires InBounds(cs, i, j) && InBounds(r.campaigns, i, j) && r.campaigns[i].drops[j] == cs[i].drops[j]
    requires !SkipsDrop(r.campaigns[i], cs[i].drops[j], o) && !Cooling(r.cache, cs[i].drops[j].id, o)
    ensures DropStep(r, i, j, o, server) == AfterRequest(cs, r, o, server, i, j)
  {
  }

  lemma SweptRequest(st: State, r: State, o: Options, server: Server, i: nat, j: nat)
    requires InBounds(st.campaigns, i, j) && InBounds(r.campaigns, i, j) && Swept(st, r, o, server, i, j)
    requires var d := st.campaigns[i].drops[j];
             Wanted(st.campaigns[i], d, o) && !CoolsWhenReached(st.cache, r.log, |st.log|, o, d.id, i, j)
    ensures Swept(st, AfterRequest(st.campaigns, r, o, server, i, j), o, server, i, j + 1)
  {
    var cs, n := st.campaigns, |st.log|;
    NotAskedYet(cs, r.log, n, o, server, i, j);
    RequestsExtend(cs, r.log, n, o, server, i, j);
    AskedExtend(cs, st.cache, r.log, n, o, server, i, j);
    CacheExtend(cs, st.cache, r.cache, r.log, n, o, server, i, j);
    DropsExtend(cs, r.campaigns, r.log, n, o, server, i, j);
    ResultsExtend(cs, r.log, n, o, server, i, j, Granted);
    ResultsExtend(cs, r.log, n, o, server, i, j, ClaimError);
  }

  // On to the next campaign, past drops that are not wanted.
  lemma SweptCampaign(st: State, r: State, o: Options, server: Server, i: nat, j: nat)
    requires i < |st.campaigns| && j <= |st.campaigns[i].drops| && Swept(st, r, o, server, i, j)
    requires SkipsCampaign(st.campaigns[i], o) || j == |st.campaigns[i].drops|
    ensures Swept(st, r, o, server, i + 1, 0)
  {
    var cs, n := st.campaigns, |st.log|;
    RequestsStay(cs, r.log, n, o, server, i, j, i + 1, 0);
    forall a: nat, b: nat | InBounds(cs, a, b) && Earlier(a, b, i + 1, 0) && !Earlier(a, b, i, j)
      ensures !Wanted(cs[a], cs[a].drops[b], o)
    {
      WantedExact(cs[a], cs[a].drops[b], o);
    }
    AskedStays(cs, st.cache, r.log, n, o, server, i, j, i + 1, 0);
  }

  // A position the sweep can be at.
  predicate At(cs: seq<Campaign>, i: nat, j: nat) {
    i <= |cs| && if i < |cs| then j <= |cs[i].drops| else j == 0
  }

  // The sweep goes on to the next campaign.
  predicate LeavesCampaign(r: State, i: nat, j: nat, o: Options) {
    i < |r.campaigns| && j <= |r.campaigns[i].drops| &&
    (SkipsCampaign(r.campaigns[i], o) || j == |r.campaigns[i].drops|)
  }

  // To show that p holds at the end of a sweep, show that it holds now and that
  // going past a drop and on to the next campaign keep it.
  lemma {:induction false} SweepInduction(r: State, o: Options, server: Server, i: nat, j: nat, p: (State, nat, nat) -> bool)
    requires At(r.campaigns, i, j) && p(r, i, j)
    requires forall r: State, i: nat, j: nat :: p(r, i, j) && InBounds(r.campaigns, i, j) && !SkipsCampaign(r.campaigns[i], o) ==>
               p(DropStep(r, i, j, o, server), i, j + 1)
    requires forall r: State, i: nat, j: nat :: p(r, i, j) && LeavesCampaign(r, i, j, o) ==> p(r, i + 1, 0)
    ensures p(SweepFrom(r, i, j, o, server), |r.campaigns|, 0)
    decreases |r.campaigns| - i, if i < |r.campaigns| then |r.campaigns[i].drops| - j else 0
  {
    if i < |r.campaigns| {
      if SkipsCampaign(r.campaigns[i], o) || j == |r.campaigns[i].drops| {
        SweepInduction(r, o, server, i + 1, 0, p);
      } else {
        SweepInduction(DropStep(r, i, j, o, server), o, server, i, j + 1, p);
      }
    }
  }

  lemma SweptShape(st: State, r: State, o: Options, server: Server, i: nat, j: nat)
    requires Swept(st, r, o, server, i, j)
    ensures |r.campaigns| == |st.campaigns|
    ensures forall k :: 0 <= k < |st.campaigns| ==>
              |r.campaigns[k].drops| == |st.campaigns[k].drops| &&
              (SkipsCampaign(r.campaigns[k], o) <==> SkipsCampaign(st.campaigns[k], o))
  {
  }

  lemma SweepExact(st: State, o: Options, server: Server)
    ensures Swept(st, SweepFrom(st, 0, 0, o, server), o, server, |st.campaigns|, 0)
  {
    var p := (r: State, i: nat, j: nat) => Swept(st, r, o, server, i, j);
    NothingSwept(st, o, server);
    forall r: State, i: nat, j: nat | p(r, i, j) && InBounds(r.campaigns, i, j) && !SkipsCampaign(r.campaigns[i], o)
      ensures p(DropStep(r, i, j, o, server), i, j + 1)
    {
      SweptShape(st, r, o, server, i, j);
      SweptDrop(st, r, o, server, i, j);
    }
    forall r: State, i: nat, j: nat | p(r, i, j) && LeavesCampaign(r, i, j, o)
      ensures p(r, i + 1, 0)
    {
      SweptShape(st, r, o, server, i, j);
      SweptCampaign(st, r, o, server, i, j);
    }
    SweepInduction(st, o, server, 0, 0, p);
  }

  lemma NothingSwept(st: State, o: Options, server: Server)
    ensures Swept(st, st, o, server, 0, 0)
  {
    assert st.log[|st.log|..] == [];
  }

  // In one sweep a drop is asked for exactly if it is wanted and not cooling when
  // reached, and then once; it is claimed at the end exactly if it was before or
  // the server grants that one request, whatever it answers to the others.
  lemma EachDropGetsItsTurn(st: State, o: Options, server: Server, i: nat, j: nat)
    requires InBounds(st.campaigns, i, j)
    ensures var r := SweepFrom(st, 0, 0, o, server);
            var d, n := st.campaigns[i].drops[j], |st.log|;
            && n <= |r.log| && InBounds(r.campaigns, i, j)
            && (Asked(r.log, n, i, j) <==>
                Wanted(st.campaigns[i], d, o) && !CoolsWhenReached(st.cache, r.log, n, o, d.id, i, j))
            && (forall k, m :: n <= k < m < |r.log| && r.log[k].i == r.log[m].i == i ==> r.log[k].j != r.log[m].j)
            && (r.campaigns[i].drops[j].isClaimed <==>
                d.isClaimed || exists k :: n <= k < |r.log| && r.log[k].i == i && r.log[k].j == j && Grants(server(k)))
  {
    SweepExact(st, o, server);
    var r := SweepFrom(st, 0, 0, o, server);
    assert Earlier(i, j, |st.campaigns|, 0);
    forall k | |st.log| <= k < |r.log|
      ensures r.log[k].result == Granted <==> Grants(server(k))
    {
      JudgeExact(server(k));
    }
  }
}
