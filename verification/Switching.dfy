// Channel switching decisions (internal/inventory/switch.go).
module Switching {
  import opened Common
  import opened Inventory
  import opened Ranking

  predicate Wants(g: Game, actual: Game) {
    g.id == actual.id || (g.name != "" && g.name == actual.name)
  }

  function GetPriority(ch: Channel, wanted: seq<Game>): nat {
    if !ch.online || ch.game.None? then MAX_INT else FirstWanted(ch.game.value, wanted, 0)
  }

  function FirstWanted(actual: Game, wanted: seq<Game>, i: nat): nat
    requires i <= |wanted|
    decreases |wanted| - i
  {
    if i == |wanted| then MAX_INT
    else if Wants(wanted[i], actual) then i
    else FirstWanted(actual, wanted, i + 1)
  }

  predicate ShouldSwitch(candidate: Channel, current: Channel, wanted: seq<Game>) {
    var a := GetPriority(candidate, wanted);
    var b := GetPriority(current, wanted);
    if a < b then true
    else if a == b && candidate.aclBased && !current.aclBased then true
    else false
  }

  const GRACE_WINDOW := 120

  predicate Elapsed(offlineSince: int, now: int, window: int) {
    now - offlineSince >= window
  }

  datatype Reason = NotWatching | NoCandidates | WithinGrace | BetterCandidate | NoBetter

  datatype Decision = Decision(switch: bool, target: Option<Channel>, reason: Reason)

  function Decide(current: Option<Channel>, offlineSince: Option<int>, candidates: seq<Channel>,
                  wanted: seq<Game>, window: int, now: int): Decision
  {
    if current.None? then
      if |candidates| > 0 then Decision(true, Some(candidates[0]), NotWatching)
      else Decision(false, None, NoCandidates)
    else if offlineSince.Some? && !Elapsed(offlineSince.value, now, window) then
      Decision(false, None, WithinGrace)
    else
      match FirstBetter(current.value, candidates, wanted)
      case Some(ch) => Decision(true, Some(ch), BetterCandidate)
      case None => Decision(false, None, NoBetter)
  }

  function FirstBetter(current: Channel, candidates: seq<Channel>, wanted: seq<Game>): Option<Channel> {
    if candidates == [] then None
    else if ShouldSwitch(candidates[0], current, wanted) then Some(candidates[0])
    else FirstBetter(current, candidates[1..], wanted)
  }

  // ------------------------------------------------------------------
  // No ping-pong
  // ------------------------------------------------------------------

  // The position of a channel in the order the two tests define: its priority
  // first (n for a channel no wanted game matches), then the channel list.
  function Rank(ch: Channel, wanted: seq<Game>): (r: int)
    requires |wanted| <= MAX_INT
  {
    var p := GetPriority(ch, wanted);
    2 * (if p == MAX_INT then |wanted| else p) + if ch.aclBased then 0 else 1
  }

  lemma {:induction false} FirstWantedRange(actual: Game, wanted: seq<Game>, i: nat)
    requires i <= |wanted|
    ensures var p := FirstWanted(actual, wanted, i);
            if exists k :: i <= k < |wanted| && Wants(wanted[k], actual)
            then i <= p < |wanted| && Wants(wanted[p], actual) && forall k :: i <= k < p ==> !Wants(wanted[k], actual)
            else p == MAX_INT
    decreases |wanted| - i
  {
    if i < |wanted| && !Wants(wanted[i], actual) {
      FirstWantedRange(actual, wanted, i + 1);
    }
  }

  lemma PriorityRange(ch: Channel, wanted: seq<Game>)
    ensures GetPriority(ch, wanted) < |wanted| || GetPriority(ch, wanted) == MAX_INT
  {
    if ch.game.Some? {
      FirstWantedRange(ch.game.value, wanted, 0);
    }
  }

  // Switching is a strict order: the candidate's rank is smaller.
  lemma SwitchIsRankOrder(candidate: Channel, current: Channel, wanted: seq<Game>)
    requires |wanted| <= MAX_INT
    ensures ShouldSwitch(candidate, current, wanted) <==> Rank(candidate, wanted) < Rank(current, wanted)
    ensures 0 <= Rank(candidate, wanted) < 2 * (|wanted| + 1)
  {
    PriorityRange(candidate, wanted);
    PriorityRange(current, wanted);
  }

  // Within the grace window nothing is switched. Otherwise the decision names the
  // first candidate that ranks below the current channel, if there is one.
  lemma DecideExact(current: Channel, offlineSince: Option<int>, candidates: seq<Channel>,
                    wanted: seq<Game>, window: int, now: int)
    requires |wanted| <= MAX_INT
    ensures var d := Decide(Some(current), offlineSince, candidates, wanted, window, now);
            if offlineSince.Some? && now - offlineSince.value < window then d == Decision(false, None, WithinGrace)
            else if d.switch
            then d.reason == BetterCandidate && d.target.Some? &&
                 exists k :: 0 <= k < |candidates| && d.target.value == candidates[k] &&
                             Rank(candidates[k], wanted) < Rank(current, wanted) &&
                             forall j :: 0 <= j < k ==> Rank(current, wanted) <= Rank(candidates[j], wanted)
            else forall j :: 0 <= j < |candidates| ==> Rank(current, wanted) <= Rank(candidates[j], wanted)
  {
    FirstBetterExact(current, candidates, wanted);
  }

  lemma {:induction false} FirstBetterExact(current: Channel, candidates: seq<Channel>, wanted: seq<Game>)
    requires |wanted| <= MAX_INT
    ensures match FirstBetter(current, candidates, wanted)
            case Some(ch) =>
              exists k :: 0 <= k < |candidates| && ch == candidates[k] &&
                          Rank(candidates[k], wanted) < Rank(current, wanted) &&
                          forall j :: 0 <= j < k ==> Rank(current, wanted) <= Rank(candidates[j], wanted)
            case None => forall j :: 0 <= j < |candidates| ==> Rank(current, wanted) <= Rank(candidates[j], wanted)
  {
    if candidates != [] {
      SwitchIsRankOrder(candidates[0], current, wanted);
      var rest := candidates[1..];
      if !ShouldSwitch(candidates[0], current, wanted) {
        FirstBetterExact(current, rest, wanted);
        assert forall j :: 0 < j < |candidates| ==> candidates[j] == rest[j - 1];
        if ch: Channel :| FirstBetter(current, rest, wanted) == Some(ch) {
          var k :| 0 <= k < |rest| && ch == rest[k] && Rank(rest[k], wanted) < Rank(current, wanted) &&
                   forall j :: 0 <= j < k ==> Rank(current, wanted) <= Rank(rest[j], wanted);
          assert candidates[k + 1] == ch;
          assert forall j :: 0 <= j < k + 1 ==> Rank(current, wanted) <= Rank(candidates[j], wanted);
        }
      }
    }
  }

  // The channel is online with a game that wanted game p, and none before it, matches
  // by ID or by a name that is not empty.
  predicate MatchesAt(ch: Channel, wanted: seq<Game>, p: nat) {
    && ch.online && ch.game.Some? && p < |wanted|
    && SameGame(wanted[p], ch.game.value) && forall k :: 0 <= k < p ==> !SameGame(wanted[k], ch.game.value)
  }

  predicate SameGame(a: Game, b: Game) {
    a.id == b.id || (a.name == b.name != "")
  }

  // The priority is the position of the matching game; an offline channel, one
  // without a game and one that no wanted game matches come last.
  lemma PriorityExact(ch: Channel, wanted: seq<Game>)
    requires |wanted| <= MAX_INT
    ensures forall p: nat :: p < |wanted| ==> (GetPriority(ch, wanted) == p <==> MatchesAt(ch, wanted, p))
    ensures GetPriority(ch, wanted) >= |wanted| ==> GetPriority(ch, wanted) == 0x7FFF_FFFF_FFFF_FFFF
  {
    PriorityRange(ch, wanted);
    if ch.online && ch.game.Some? {
      FirstWantedRange(ch.game.value, wanted, 0);
      forall k | 0 <= k < |wanted|
        ensures Wants(wanted[k], ch.game.value) <==> SameGame(wanted[k], ch.game.value)
      {
      }
    }
  }

  // A candidate is better if it matches a wanted game and the current channel none up
  // to there, or if both match alike and only the candidate is on the channel list.
  lemma BetterExact(candidate: Channel, current: Channel, wanted: seq<Game>)
    requires |wanted| <= MAX_INT
    ensures ShouldSwitch(candidate, current, wanted) <==>
            || (exists p: nat :: MatchesAt(candidate, wanted, p) && forall q :: 0 <= q <= p ==> !MatchesAt(current, wanted, q))
            || (candidate.aclBased && !current.aclBased &&
                forall p: nat :: MatchesAt(candidate, wanted, p) <==> MatchesAt(current, wanted, p))
  {
    PriorityExact(candidate, wanted);
    PriorityExact(current, wanted);
    var a, b := GetPriority(candidate, wanted), GetPriority(current, wanted);
    PriorityRange(candidate, wanted);
    PriorityRange(current, wanted);
    if a < b {
      assert MatchesAt(candidate, wanted, a) && !MatchesAt(current, wanted, a);
      assert forall q :: 0 <= q <= a ==> !MatchesAt(current, wanted, q);
    } else if a == b {
      assert forall p: nat :: MatchesAt(candidate, wanted, p) <==> MatchesAt(current, wanted, p);
    } else {
      assert MatchesAt(current, wanted, b) && !MatchesAt(candidate, wanted, b);
      assert forall p: nat :: MatchesAt(candidate, wanted, p) ==> p == a && b <= p;
    }
  }

  // With nothing watched the first candidate is taken, whatever it is.
  lemma DecideIdle(offlineSince: Option<int>, candidates: seq<Channel>, wanted: seq<Game>, window: int, now: int)
    ensures Decide(None, offlineSince, candidates, wanted, window, now) ==
            if candidates == [] then Decision(false, None, NoCandidates) else Decision(true, Some(candidates[0]), NotWatching)
  {
  }

  // The standard window keeps an offline channel for 120 seconds.
  lemma StandardGrace(current: Channel, since: int, candidates: seq<Channel>, wanted: seq<Game>, now: int)
    ensures Decide(Some(current), Some(since), candidates, wanted, GRACE_WINDOW, now).reason == WithinGrace <==> now < since + 120
  {
  }

  // One round of the decision: what was offered and when, and how long the
  // current channel had been offline.
  datatype Round = Round(offlineSince: Option<int>, candidates: seq<Channel>, window: int, now: int)

  // The channels watched while going through rounds, and the number of switches.
  function Follow(current: Channel, rounds: seq<Round>, wanted: seq<Game>): (r: (Channel, nat))
    ensures r.1 <= |rounds|
    decreases |rounds|
  {
    if rounds == [] then (current, 0)
    else
      var d := Decide(Some(current), rounds[0].offlineSince, rounds[0].candidates, wanted,
                      rounds[0].window, rounds[0].now);
      if d.switch && d.target.Some? then
        var (last, n) := Follow(d.target.value, rounds[1..], wanted);
        (last, n + 1)
      else Follow(current, rounds[1..], wanted)
  }

  // Each switch lowers the rank, so the ranks left bound the switches to come.
  lemma {:induction false} SwitchesBoundedByRank(current: Channel, rounds: seq<Round>, wanted: seq<Game>)
    requires |wanted| <= MAX_INT
    ensures Follow(current, rounds, wanted).1 + Rank(Follow(current, rounds, wanted).0, wanted) <= Rank(current, wanted)
    decreases |rounds|
  {
    if rounds != [] {
      var r := rounds[0];
      var d := Decide(Some(current), r.offlineSince, r.candidates, wanted, r.window, r.now);
      if d.switch && d.target.Some? {
        DecideExact(current, r.offlineSince, r.candidates, wanted, r.window, r.now);
        SwitchesBoundedByRank(d.target.value, rounds[1..], wanted);
      } else {
        SwitchesBoundedByRank(current, rounds[1..], wanted);
      }
    }
  }

  // Over any candidate lists, a watcher switches at most 2(n + 1) - 1 times.
  lemma NoPingPong(current: Channel, rounds: seq<Round>, wanted: seq<Game>)
    requires |wanted| <= MAX_INT
    ensures Follow(current, rounds, wanted).1 <= 2 * (|wanted| + 1) - 1
  {
    SwitchesBoundedByRank(current, rounds, wanted);
    SwitchIsRankOrder(current, current, wanted);
    SwitchIsRankOrder(Follow(current, rounds, wanted).0, current, wanted);
  }

  // ------------------------------------------------------------------
  // The bound is attained
  // ------------------------------------------------------------------

  // No wanted game matches a later one.
  predicate Separate(wanted: seq<Game>) {
    forall i, j :: 0 <= i < j < |wanted| ==> !Wants(wanted[i], wanted[j])
  }

  // A channel of the given rank.
  function Sample(wanted: seq<Game>, r: nat): Channel
    requires r < 2 * (|wanted| + 1)
  {
    Channel("id", "login", r % 2 == 0, r / 2 < |wanted|,
            if r / 2 < |wanted| then Some(wanted[r / 2]) else None)
  }

  lemma SampleRank(wanted: seq<Game>, r: nat)
    requires Separate(wanted) && |wanted| <= MAX_INT && r < 2 * (|wanted| + 1)
    ensures Rank(Sample(wanted, r), wanted) == r
  {
    var p := r / 2;
    if p < |wanted| {
      FirstWantedRange(wanted[p], wanted, 0);
      assert Wants(wanted[p], wanted[p]);
    }
  }

  lemma SamplesImprove(wanted: seq<Game>, r: nat)
    requires Separate(wanted) && |wanted| <= MAX_INT && 0 < r < 2 * (|wanted| + 1)
    ensures ShouldSwitch(Sample(wanted, r - 1), Sample(wanted, r), wanted)
  {
    SampleRank(wanted, r);
    SampleRank(wanted, r - 1);
    SwitchIsRankOrder(Sample(wanted, r - 1), Sample(wanted, r), wanted);
  }

  // The channels below rank r, offered one by one from the worst on.
  function Ladder(wanted: seq<Game>, r: nat): seq<Round>
    requires r < 2 * (|wanted| + 1)
  {
    if r == 0 then [] else [Round(None, [Sample(wanted, r - 1)], GRACE_WINDOW, 0)] + Ladder(wanted, r - 1)
  }

  // Offered only a better channel, the watcher takes it.
  lemma TakesTheBetter(current: Channel, better: Channel, rest: seq<Round>, wanted: seq<Game>)
    requires ShouldSwitch(better, current, wanted)
    ensures Follow(current, [Round(None, [better], GRACE_WINDOW, 0)] + rest, wanted).1 == Follow(better, rest, wanted).1 + 1
  {
    var rounds := [Round(None, [better], GRACE_WINDOW, 0)] + rest;
    assert FirstBetter(current, [better], wanted) == Some(better);
    assert rounds[1..] == rest;
  }

  lemma {:induction false} LadderSwitches(wanted: seq<Game>, r: nat)
    requires Separate(wanted) && |wanted| <= MAX_INT && r < 2 * (|wanted| + 1)
    ensures Follow(Sample(wanted, r), Ladder(wanted, r), wanted).1 == r
  {
    if r > 0 {
      SamplesImprove(wanted, r);
      TakesTheBetter(Sample(wanted, r), Sample(wanted, r - 1), Ladder(wanted, r - 1), wanted);
      LadderSwitches(wanted, r - 1);
    }
  }

  // Over a list of separate games some candidate lists bring about every switch the bound allows.
  lemma NoPingPongIsSharp(wanted: seq<Game>) returns (current: Channel, rounds: seq<Round>)
    requires Separate(wanted) && |wanted| <= MAX_INT
    ensures Follow(current, rounds, wanted).1 == 2 * (|wanted| + 1) - 1
  {
    var worst := 2 * |wanted| + 1;
    current, rounds := Sample(wanted, worst), Ladder(wanted, worst);
    LadderSwitches(wanted, worst);
  }
}
