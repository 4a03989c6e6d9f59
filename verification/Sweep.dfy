// Sweeping up unclaimed drops, with a cooldown for drops whose account is not
// linked (internal/inventory/claim.go:107-197).
module Sweep {
  import opened Common
  import opened Inventory
  import opened Claiming

  // The options of one sweep; without a cache, cooldowns are neither kept nor heeded.
  datatype Options = Options(now: int, exclude: seq<string>, matches: Keywords, useCache: bool, cooldown: nat)

  // A request for drop j of campaign i, with its ID, at an instant; `until` matters
  // for not-linked replies.
  datatype Request = Request(i: nat, j: nat, id: string, at: int, result: ClaimResult, until: int)

  // Replies by number of the request, over all sweeps.
  type Server = nat -> ClaimReply

  datatype State = State(campaigns: seq<Campaign>, cache: map<string, int>, claimed: nat, errors: nat, log: seq<Request>)

  predicate SkipsCampaign(c: Campaign, o: Options) {
    Upcoming(c, o.now) || c.game.name in o.exclude
  }

  predicate SkipsDrop(c: Campaign, d: TimedDrop, o: Options) {
    !CanClaim(d, c.endsAt, o.now) || ExcludedByKeyword(d, o.matches)
  }

  predicate Cooling(cache: map<string, int>, id: string, o: Options) {
    o.useCache && id in cache && o.now < cache[id]
  }

  function WithDrop(cs: seq<Campaign>, i: nat, j: nat, d: TimedDrop): (r: seq<Campaign>)
    requires i < |cs| && j < |cs[i].drops|
    ensures |r| == |cs| && forall k :: 0 <= k < |cs| ==> |r[k].drops| == |cs[k].drops|
  {
    cs[i := cs[i].(drops := cs[i].drops[j := d])]
  }

  // What happens at drop j of a campaign that is not skipped.
  function DropStep(st: State, i: nat, j: nat, o: Options, server: Server): (r: State)
    requires i < |st.campaigns| && j < |st.campaigns[i].drops|
    ensures |r.campaigns| == |st.campaigns|
    ensures forall k :: 0 <= k < |st.campaigns| ==> |r.campaigns[k].drops| == |st.campaigns[k].drops|
  {
    var c := st.campaigns[i];
    var d := c.drops[j];
    if SkipsDrop(c, d, o) || Cooling(st.cache, d.id, o) then st
    else
      var result := Judge(server(|st.log|));
      var asked := st.(log := st.log + [Request(i, j, d.id, o.now, result, o.now + o.cooldown)]);
      match result
      case Granted =>
        asked.(campaigns := WithDrop(st.campaigns, i, j, GrantedDrop(d, d.claimId)), claimed := st.claimed + 1)
      case Refused => asked
      case NotLinked => if o.useCache then asked.(cache := st.cache[d.id := o.now + o.cooldown]) else asked
      case ClaimError => asked.(errors := st.errors + 1)
  }

  // The sweep from drop j of campaign i on.
  function SweepFrom(st: State, i: nat, j: nat, o: Options, server: Server): State
    requires i <= |st.campaigns| && (i < |st.campaigns| ==> j <= |st.campaigns[i].drops|)
    decreases |st.campaigns| - i, if i < |st.campaigns| then |st.campaigns[i].drops| - j else 0
  {
    if i == |st.campaigns| then st
    else if SkipsCampaign(st.campaigns[i], o) || j == |st.campaigns[i].drops| then SweepFrom(st, i + 1, 0, o, server)
    else SweepFrom(DropStep(st, i, j, o, server), i, j + 1, o, server)
  }

  class Sweeper {
    var campaigns: seq<Campaign>
    var cache: map<string, int>
    var log: seq<Request>   // the requests sent so far
    const userId: string

    constructor (userId: string)
      ensures campaigns == [] && cache == map[] && log == [] && this.userId == userId
    {
      campaigns, cache, log := [], map[], [];
      this.userId := userId;
    }

    // The claim of drop j of campaign i, given the server's reply if it is asked.
    // A drop that is claimed already counts as granted without a request.
    method ClaimOne(i: nat, j: nat, reply: ClaimReply) returns (r: ClaimResult)
      requires i < |campaigns| && j < |campaigns[i].drops|
      modifies this`campaigns
      ensures var c := old(campaigns)[i];
              var d := c.drops[j];
              if d.isClaimed then r == Granted && campaigns == old(campaigns)
              else r == Judge(reply) &&
                   campaigns == if r == Granted
                                then WithDrop(old(campaigns), i, j, GrantedDrop(d, ClaimIdFor(d, userId, c.id)))
                                else old(campaigns)
    {
      var d := campaigns[i].drops[j];
      if d.isClaimed {
        return Granted;
      }
      var claimId := d.claimId;
      if claimId == "" {
        claimId := userId + "#" + campaigns[i].id + "#" + d.id;
      }
      r := Judge(reply);
      if r == Granted {
        var drops := campaigns[i].drops[j := d.(isClaimed := true, claimId := claimId, current := d.required)];
        campaigns := campaigns[i := campaigns[i].(drops := drops)];
      }
    }

    // The body of the inner loop.
    method VisitDrop(i: nat, j: nat, o: Options, server: Server, claimed: nat, errors: nat)
      returns (claimed': nat, errors': nat)
      requires i < |campaigns| && j < |campaigns[i].drops|
      modifies this
      ensures State(campaigns, cache, claimed', errors', log) ==
              DropStep(State(old(campaigns), old(cache), claimed, errors, old(log)), i, j, o, server)
    {
      claimed', errors' := claimed, errors;
      var d := campaigns[i].drops[j];
      if !CanClaim(d, campaigns[i].endsAt, o.now) {
        return;
      }
      if ExcludedByKeyword(d, o.matches) {
        return;
      }
      if o.useCache && d.id in cache && o.now < cache[d.id] {
        return;
      }
      var r := ClaimOne(i, j, server(|log|));
      log := log + [Request(i, j, d.id, o.now, r, o.now + o.cooldown)];
      if r == ClaimError {
        errors' := errors + 1;
      } else if r == NotLinked {
        if o.useCache {
          cache := cache[d.id := o.now + o.cooldown];
        }
      } else if r == Granted {
        claimed' := claimed + 1;
      }
    }

    // One campaign of the sweep.
    method SweepCampaign(i: nat, o: Options, server: Server, claimed: nat, errors: nat)
      returns (claimed': nat, errors': nat)
      requires i < |campaigns|
      modifies this
      ensures |campaigns| == |old(campaigns)|
      ensures SweepFrom(State(campaigns, cache, claimed', errors', log), i + 1, 0, o, server) ==
              SweepFrom(State(old(campaigns), old(cache), claimed, errors, old(log)), i, 0, o, server)
    {
      claimed', errors' := claimed, errors;
      if Upcoming(campaigns[i], o.now) {
        return;
      }
      if campaigns[i].game.name in o.exclude {
        return;
      }
      ghost var st0 := State(campaigns, cache, claimed, errors, log);
      var j := 0;
      var n := |campaigns[i].drops|;
      while j < n
        invariant i < |campaigns| == |old(campaigns)|
        invariant j <= |campaigns[i].drops| == n && !SkipsCampaign(campaigns[i], o)
        invariant SweepFrom(State(campaigns, cache, claimed', errors', log), i, j, o, server) ==
                  SweepFrom(st0, i, 0, o, server)
      {
        ghost var st := State(campaigns, cache, claimed', errors', log);
        claimed', errors' := VisitDrop(i, j, o, server, claimed', errors');
        StillSwept(st, i, j, o, server);
        j := j + 1;
      }
    }

    method SweepUnclaimed(o: Options, server: Server) returns (claimedCount: nat, errors: nat)
      modifies this
      ensures State(campaigns, cache, claimedCount, errors, log) ==
              SweepFrom(State(old(campaigns), old(cache), 0, 0, old(log)), 0, 0, o, server)
    {
      claimedCount, errors := 0, 0;
      ghost var st0 := State(campaigns, cache, 0, 0, log);
      var n := |campaigns|;
      for i := 0 to n
        invariant |campaigns| == n
        invariant SweepFrom(State(campaigns, cache, claimedCount, errors, log), i, 0, o, server) ==
                  SweepFrom(st0, 0, 0, o, server)
      {
        claimedCount, errors := SweepCampaign(i, o, server, claimedCount, errors);
      }
    }
  }

  lemma StillSwept(st: State, i: nat, j: nat, o: Options, server: Server)
    requires i < |st.campaigns| && j < |st.campaigns[i].drops|
    ensures SkipsCampaign(DropStep(st, i, j, o, server).campaigns[i], o) == SkipsCampaign(st.campaigns[i], o)
  {
  }

  // ------------------------------------------------------------------
  // What one sweep does to the drops
  // ------------------------------------------------------------------

  function ClaimedTotal(cs: seq<Campaign>): nat {
    if cs == [] then 0 else Count(cs[0].drops, (d: TimedDrop) => d.isClaimed) + ClaimedTotal(cs[1..])
  }

  lemma {:induction false} ClaimedTotalUpdate(cs: seq<Campaign>, i: nat, j: nat, d: TimedDrop)
    requires i < |cs| && j < |cs[i].drops| && !cs[i].drops[j].isClaimed && d.isClaimed
    ensures ClaimedTotal(WithDrop(cs, i, j, d)) == ClaimedTotal(cs) + 1
  {
    var cs' := WithDrop(cs, i, j, d);
    if i == 0 {
      CountUpdate(cs[0].drops, j, d, (d: TimedDrop) => d.isClaimed);
      assert cs'[1..] == cs[1..];
    } else {
      ClaimedTotalUpdate(cs[1..], i - 1, j, d);
      assert cs'[1..] == WithDrop(cs[1..], i - 1, j, d);
    }
  }

  // Only drops that pass the filters change, and only by being granted.
  ghost predicate Touched(cs: seq<Campaign>, cs': seq<Campaign>, o: Options) {
    && |cs| == |cs'|
    && forall i :: 0 <= i < |cs| ==>
         && |cs[i].drops| == |cs'[i].drops|
         && cs'[i] == cs[i].(drops := cs'[i].drops)
         && forall j :: 0 <= j < |cs[i].drops| ==> DropTouched(cs[i], cs[i].drops[j], cs'[i].drops[j], o)
  }

  predicate DropTouched(c: Campaign, d: TimedDrop, d': TimedDrop, o: Options) {
    d' == d || (!SkipsCampaign(c, o) && !SkipsDrop(c, d, o) && d' == GrantedDrop(d, d.claimId))
  }

  lemma TouchedTransitive(a: seq<Campaign>, b: seq<Campaign>, c: seq<Campaign>, o: Options)
    requires Touched(a, b, o) && Touched(b, c, o)
    ensures Touched(a, c, o)
  {
    forall i, j | 0 <= i < |a| && 0 <= j < |a[i].drops|
      ensures DropTouched(a[i], a[i].drops[j], c[i].drops[j], o)
    {
      assert DropTouched(a[i], a[i].drops[j], b[i].drops[j], o);
      assert DropTouched(b[i], b[i].drops[j], c[i].drops[j], o);
    }
  }

  lemma WithDropTouches(cs: seq<Campaign>, i: nat, j: nat, o: Options)
    requires i < |cs| && j < |cs[i].drops| && !SkipsCampaign(cs[i], o) && !SkipsDrop(cs[i], cs[i].drops[j], o)
    ensures var d := cs[i].drops[j]; Touched(cs, WithDrop(cs, i, j, GrantedDrop(d, d.claimId)), o)
  {
  }

  lemma DropStepTouches(st: State, i: nat, j: nat, o: Options, server: Server)
    requires i < |st.campaigns| && j < |st.campaigns[i].drops| && !SkipsCampaign(st.campaigns[i], o)
    ensures var r := DropStep(st, i, j, o, server);
            && Touched(st.campaigns, r.campaigns, o)
            && ClaimedTotal(r.campaigns) - ClaimedTotal(st.campaigns) == r.claimed - st.claimed
            && r.claimed >= st.claimed
  {
    var d := st.campaigns[i].drops[j];
    if !SkipsDrop(st.campaigns[i], d, o) {
      WithDropTouches(st.campaigns, i, j, o);
      ClaimedTotalUpdate(st.campaigns, i, j, GrantedDrop(d, d.claimId));
    }
    assert Touched(st.campaigns, st.campaigns, o);
  }

  // The count a sweep reports is the number of drops it flipped to claimed, and
  // every drop a filter rejects is left exactly as it was.
  lemma {:induction false} SweepCounts(st: State, i: nat, j: nat, o: Options, server: Server)
    requires i <= |st.campaigns| && (i < |st.campaigns| ==> j <= |st.campaigns[i].drops|)
    ensures var r := SweepFrom(st, i, j, o, server);
            && Touched(st.campaigns, r.campaigns, o)
            && ClaimedTotal(r.campaigns) - ClaimedTotal(st.campaigns) == r.claimed - st.claimed
            && r.claimed >= st.claimed
    decreases |st.campaigns| - i, if i < |st.campaigns| then |st.campaigns[i].drops| - j else 0
  {
    if i < |st.campaigns| {
      if SkipsCampaign(st.campaigns[i], o) || j == |st.campaigns[i].drops| {
        SweepCounts(st, i + 1, 0, o, server);
      } else {
        var next := DropStep(st, i, j, o, server);
        DropStepTouches(st, i, j, o, server);
        SweepCounts(next, i, j + 1, o, server);
        TouchedTransitive(st.campaigns, next.campaigns, SweepFrom(next, i, j + 1, o, server).campaigns, o);
      }
    }
  }

  // ------------------------------------------------------------------
  // Cooldowns over many sweeps
  // ------------------------------------------------------------------

  // A later request for an ID whose account was not linked waits out the cooldown.
  ghost predicate Spaced(log: seq<Request>) {
    forall j, k :: 0 <= j < k < |log| && log[j].result == NotLinked && log[j].id == log[k].id ==>
      log[j].until <= log[k].at
  }

  // The cache remembers every not-linked reply for at least its cooldown.
  ghost predicate Remembered(cache: map<string, int>, log: seq<Request>) {
    forall k :: 0 <= k < |log| && log[k].result == NotLinked ==> log[k].id in cache && log[k].until <= cache[log[k].id]
  }

  lemma DropStepSpaced(st: State, i: nat, j: nat, o: Options, server: Server)
    requires i < |st.campaigns| && j < |st.campaigns[i].drops| && o.useCache
    requires Spaced(st.log) && Remembered(st.cache, st.log)
    ensures var r := DropStep(st, i, j, o, server); Spaced(r.log) && Remembered(r.cache, r.log)
  {
  }

  lemma {:induction false} SweepSpaced(st: State, i: nat, j: nat, o: Options, server: Server)
    requires i <= |st.campaigns| && (i < |st.campaigns| ==> j <= |st.campaigns[i].drops|)
    requires o.useCache && Spaced(st.log) && Remembered(st.cache, st.log)
    ensures var r := SweepFrom(st, i, j, o, server); Spaced(r.log) && Remembered(r.cache, r.log)
    decreases |st.campaigns| - i, if i < |st.campaigns| then |st.campaigns[i].drops| - j else 0
  {
    if i < |st.campaigns| {
      if SkipsCampaign(st.campaigns[i], o) || j == |st.campaigns[i].drops| {
        SweepSpaced(st, i + 1, 0, o, server);
      } else {
        DropStepSpaced(st, i, j, o, server);
        SweepSpaced(DropStep(st, i, j, o, server), i, j + 1, o, server);
      }
    }
  }

  // One sweep of a sequence: the inventory as freshly fetched, and the options.
  datatype Round = Round(campaigns: seq<Campaign>, o: Options)

  // The cache and the requests after a sequence of sweeps that share the cache.
  function Sweeps(rounds: seq<Round>, server: Server): (map<string, int>, seq<Request>) {
    if rounds == [] then (map[], [])
    else
      var (cache, log) := Sweeps(rounds[..|rounds| - 1], server);
      var r := rounds[|rounds| - 1];
      var st := SweepFrom(State(r.campaigns, cache, 0, 0, log), 0, 0, r.o, server);
      (st.cache, st.log)
  }

  // In any sequence of sweeps sharing a cache, whatever inventories they see and
  // however often a drop ID occurs, a not-linked reply is followed by no further
  // request for that ID before the cooldown is over.
  lemma {:induction false} CooldownRespected(rounds: seq<Round>, server: Server)
    requires forall r :: r in rounds ==> r.o.useCache
    ensures Spaced(Sweeps(rounds, server).1) && Remembered(Sweeps(rounds, server).0, Sweeps(rounds, server).1)
  {
    if rounds != [] {
      var front := rounds[..|rounds| - 1];
      var r := rounds[|rounds| - 1];
      assert r in rounds;
      CooldownRespected(front, server);
      var (cache, log) := Sweeps(front, server);
      SweepSpaced(State(r.campaigns, cache, 0, 0, log), 0, 0, r.o, server);
    }
  }
}
