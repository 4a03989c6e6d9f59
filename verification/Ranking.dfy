// Campaign ranking and selection (internal/inventory/selector.go).
module Ranking {
  import opened Common
  import opened Inventory

  // math.MaxInt on a 64-bit platform: the index of an unlisted game.
  const MAX_INT := 0x7FFF_FFFF_FFFF_FFFF

  // The scan of priorityIndex from position i on.
  function PriorityIndexFrom(game: string, priority: seq<string>, i: nat): nat
    requires i <= |priority|
    decreases |priority| - i
  {
    if i == |priority| then MAX_INT
    else if priority[i] == game then i
    else PriorityIndexFrom(game, priority, i + 1)
  }

  function PriorityIndex(game: string, priority: seq<string>): nat {
    PriorityIndexFrom(game, priority, 0)
  }

  lemma {:induction false} PriorityIndexIsFirst(game: string, priority: seq<string>, i: nat)
    requires i <= |priority| && game !in priority[..i]
    ensures var r := PriorityIndexFrom(game, priority, i);
            if game in priority then r < |priority| && priority[r] == game && game !in priority[..r] else r == MAX_INT
    decreases |priority| - i
  {
    if i == |priority| {
      assert priority[..i] == priority;
    } else if priority[i] != game {
      assert priority[..i + 1] == priority[..i] + [priority[i]];
      PriorityIndexIsFirst(game, priority, i + 1);
    }
  }

  // The comparison handed to the sort.
  predicate Before(a: Campaign, b: Campaign, priority: seq<string>) {
    var pa := PriorityIndex(a.game.name, priority);
    var pb := PriorityIndex(b.game.name, priority);
    if pa != pb then pa < pb else a.endsAt < b.endsAt
  }

  // Neither comes before the other.
  predicate Tied(a: Campaign, b: Campaign, priority: seq<string>) {
    !Before(a, b, priority) && !Before(b, a, priority)
  }

  ghost predicate Sorted(s: seq<Campaign>, priority: seq<string>) {
    forall i, j :: 0 <= i < j < |s| ==> !Before(s[j], s[i], priority)
  }

  // out is a stable sort of s: sorted, with tied campaigns in their original order.
  ghost predicate IsStableSort(s: seq<Campaign>, out: seq<Campaign>, priority: seq<string>) {
    && Sorted(out, priority)
    && forall x: Campaign :: Ties(out, x, priority) == Ties(s, x, priority)
  }

  ghost function Ties(s: seq<Campaign>, x: Campaign, priority: seq<string>): seq<Campaign> {
    Filter(s, TiedWith(x, priority))
  }

  ghost function TiedWith(x: Campaign, priority: seq<string>): Campaign -> bool {
    c => Tied(c, x, priority)
  }

  // ------------------------------------------------------------------
  // The sort
  // ------------------------------------------------------------------

  // x inserted from the right, past every campaign it comes before.
  function Insert(s: seq<Campaign>, x: Campaign, priority: seq<string>): (r: seq<Campaign>)
    ensures |r| == |s| + 1
  {
    if s == [] then [x]
    else
      var n := |s| - 1;
      if Before(x, s[n], priority) then Insert(s[..n], x, priority) + [s[n]] else s + [x]
  }

  function Ranked(s: seq<Campaign>, priority: seq<string>): (r: seq<Campaign>)
    ensures |r| == |s|
  {
    if s == [] then []
    else
      var n := |s| - 1;
      Insert(Ranked(s[..n], priority), s[n], priority)
  }

  // The copy is sorted by moving each element left while it comes before its left neighbour.
  method SortByPriority(campaigns: seq<Campaign>, priority: seq<string>) returns (out: seq<Campaign>)
    ensures out == Ranked(campaigns, priority)
    ensures |priority| <= MAX_INT ==> InPriorityOrder(campaigns, out, priority)
  {
    out := campaigns;
    for i := 0 to |campaigns|
      invariant |out| == |campaigns|
      invariant out == Ranked(campaigns[..i], priority) + campaigns[i..]
    {
      ghost var r := Ranked(campaigns[..i], priority);
      ghost var x, rest := campaigns[i], campaigns[i + 1..];
      SplitAt(campaigns, i, r);
      assert r[..i] == r && r[i..] == [];
      var j := i;
      while j > 0 && Before(out[j], out[j - 1], priority)
        invariant 0 <= j <= i
        invariant out == Placed(r, j, x, rest)
        invariant Insert(r, x, priority) == Insert(r[..j], x, priority) + r[j..]
      {
        MoveLeft(r, j, x, rest);
        InsertLeft(r, j, x, priority);
        out := out[j := out[j - 1]][j - 1 := out[j]];
        j := j - 1;
      }
      InsertHere(r, j, x, rest, priority);
      RankedStep(campaigns, i, priority);
    }
    assert campaigns[..|campaigns|] == campaigns;
    if |priority| <= MAX_INT {
      RankedInPriorityOrder(campaigns, priority);
    }
  }

  // r with x at position j, followed by the part not sorted yet.
  ghost function Placed(r: seq<Campaign>, j: nat, x: Campaign, rest: seq<Campaign>): seq<Campaign>
    requires j <= |r|
  {
    r[..j] + [x] + r[j..] + rest
  }

  lemma SplitAt(s: seq<Campaign>, i: nat, r: seq<Campaign>)
    requires i < |s| && |r| == i
    ensures r + s[i..] == Placed(r, i, s[i], s[i + 1..])
  {
    assert s[i..] == [s[i]] + s[i + 1..];
  }

  lemma MoveLeft(r: seq<Campaign>, j: nat, x: Campaign, rest: seq<Campaign>)
    requires 0 < j <= |r|
    ensures var out := Placed(r, j, x, rest);
            out[j] == x && out[j - 1] == r[j - 1] &&
            out[j := out[j - 1]][j - 1 := out[j]] == Placed(r, j - 1, x, rest)
  {
  }

  lemma InsertLeft(r: seq<Campaign>, j: nat, x: Campaign, priority: seq<string>)
    requires 0 < j <= |r| && Before(x, r[j - 1], priority)
    ensures Insert(r[..j], x, priority) + r[j..] == Insert(r[..j - 1], x, priority) + r[j - 1..]
  {
    assert r[..j][..j - 1] == r[..j - 1];
    assert r[j - 1..] == [r[j - 1]] + r[j..];
  }

  lemma InsertHere(r: seq<Campaign>, j: nat, x: Campaign, rest: seq<Campaign>, priority: seq<string>)
    requires j <= |r| && Insert(r, x, priority) == Insert(r[..j], x, priority) + r[j..]
    requires j > 0 ==> !Before(x, Placed(r, j, x, rest)[j - 1], priority)
    ensures Placed(r, j, x, rest) == Insert(r, x, priority) + rest
  {
    assert Placed(r, j, x, rest) == r[..j] + [x] + r[j..] + rest;
    if j > 0 {
      assert Placed(r, j, x, rest)[j - 1] == r[j - 1] == r[..j][j - 1];
    } else {
      assert r[..0] + [x] == [x];
    }
  }

  lemma RankedStep(s: seq<Campaign>, i: nat, priority: seq<string>)
    requires i < |s|
    ensures Ranked(s[..i + 1], priority) == Insert(Ranked(s[..i], priority), s[i], priority)
  {
    assert s[..i + 1][..i] == s[..i];
  }

  lemma SortedSnoc(s: seq<Campaign>, x: Campaign, priority: seq<string>)
    requires Sorted(s, priority)
    requires forall i :: 0 <= i < |s| ==> !Before(x, s[i], priority)
    ensures Sorted(s + [x], priority)
  {
  }

  lemma NotBeforeTransitive(a: Campaign, b: Campaign, c: Campaign, priority: seq<string>)
    requires !Before(b, a, priority) && !Before(c, b, priority)
    ensures !Before(c, a, priority)
  {
  }

  lemma {:induction false} InsertMembers(s: seq<Campaign>, x: Campaign, priority: seq<string>)
    ensures multiset(Insert(s, x, priority)) == multiset(s) + multiset{x}
    ensures forall c :: c in Insert(s, x, priority) <==> c in s || c == x
  {
    if s != [] {
      var n := |s| - 1;
      assert s == s[..n] + [s[n]];
      InsertMembers(s[..n], x, priority);
    }
  }

  // Ranking reorders the campaigns and does nothing else.
  lemma {:induction false} RankedIsPermutation(s: seq<Campaign>, priority: seq<string>)
    ensures multiset(Ranked(s, priority)) == multiset(s)
  {
    if s != [] {
      var n := |s| - 1;
      assert s == s[..n] + [s[n]];
      RankedIsPermutation(s[..n], priority);
      InsertMembers(Ranked(s[..n], priority), s[n], priority);
    }
  }

  lemma {:induction false} InsertSorted(s: seq<Campaign>, x: Campaign, priority: seq<string>)
    requires Sorted(s, priority)
    ensures Sorted(Insert(s, x, priority), priority)
  {
    if s != [] {
      var n := |s| - 1;
      if Before(x, s[n], priority) {
        InsertSorted(s[..n], x, priority);
        var front := Insert(s[..n], x, priority);
        forall i | 0 <= i < |front|
          ensures !Before(s[n], front[i], priority)
        {
          InsertMembers(s[..n], x, priority);
          assert front[i] in front;
        }
        SortedSnoc(front, s[n], priority);
      } else {
        forall i | 0 <= i < |s|
          ensures !Before(x, s[i], priority)
        {
          NotBeforeTransitive(s[i], s[n], x, priority);
        }
        SortedSnoc(s, x, priority);
      }
    }
  }

  // Insertion puts x after everything it is tied with.
  lemma {:induction false} InsertTies(s: seq<Campaign>, x: Campaign, y: Campaign, priority: seq<string>)
    requires Sorted(s, priority)
    ensures Ties(Insert(s, x, priority), y, priority) == Ties(s + [x], y, priority)
  {
    var p := TiedWith(y, priority);
    if s != [] {
      var n := |s| - 1;
      if Before(x, s[n], priority) {
        var front, last := s[..n], [s[n]];
        InsertTies(front, x, y, priority);
        FilterAppend(Insert(front, x, priority), last, p);
        FilterAppend(front, [x], p);
        FilterAppend(front, last, p);
        FilterAppend(s, [x], p);
        assert s == front + last;
      }
    } else {
      assert s + [x] == [x];
    }
  }

  lemma RankedTies(s: seq<Campaign>, y: Campaign, priority: seq<string>)
    requires s != [] && Sorted(Ranked(s[..|s| - 1], priority), priority)
    requires Ties(Ranked(s[..|s| - 1], priority), y, priority) == Ties(s[..|s| - 1], y, priority)
    ensures Ties(Ranked(s, priority), y, priority) == Ties(s, y, priority)
  {
    var n := |s| - 1;
    var front, x := s[..n], s[n];
    var r := Ranked(front, priority);
    var p := TiedWith(y, priority);
    InsertTies(r, x, y, priority);
    FilterAppend(r, [x], p);
    FilterAppend(front, [x], p);
    assert s == front + [x];
  }

  lemma {:induction false} RankedIsStableSort(s: seq<Campaign>, priority: seq<string>)
    ensures IsStableSort(s, Ranked(s, priority), priority)
  {
    if s != [] {
      var n := |s| - 1;
      var front := s[..n];
      RankedIsStableSort(front, priority);
      var r := Ranked(front, priority);
      InsertSorted(r, s[n], priority);
      forall y: Campaign
        ensures Ties(Ranked(s, priority), y, priority) == Ties(s, y, priority)
      {
        assert Ties(r, y, priority) == Ties(front, y, priority);
        RankedTies(s, y, priority);
      }
    }
  }

  // ------------------------------------------------------------------
  // The order in plain terms
  // ------------------------------------------------------------------

  // Some position of the list names game a, and none up to there names game b.
  predicate ListedBefore(a: string, b: string, priority: seq<string>) {
    exists p :: 0 <= p < |priority| && priority[p] == a && forall q :: 0 <= q <= p ==> priority[q] != b
  }

  // The same game, or two that are not listed.
  predicate ListedAlike(a: string, b: string, priority: seq<string>) {
    a == b || (a !in priority && b !in priority)
  }

  // Campaigns that nothing but their place in the input tells apart.
  predicate Peers(a: Campaign, b: Campaign, priority: seq<string>) {
    ListedAlike(a.game.name, b.game.name, priority) && a.endsAt == b.endsAt
  }

  ghost function PeersOf(x: Campaign, priority: seq<string>): Campaign -> bool {
    c => Peers(c, x, priority)
  }

  // out holds the campaigns of s: no later one is listed before an earlier one, of
  // those listed alike none ends before an earlier one, and peers keep their order.
  ghost predicate InPriorityOrder(s: seq<Campaign>, out: seq<Campaign>, priority: seq<string>) {
    && multiset(out) == multiset(s)
    && (forall i, j :: 0 <= i < j < |out| ==>
          !ListedBefore(out[j].game.name, out[i].game.name, priority) &&
          (ListedAlike(out[i].game.name, out[j].game.name, priority) ==> out[i].endsAt <= out[j].endsAt))
    && forall x: Campaign :: Filter(out, PeersOf(x, priority)) == Filter(s, PeersOf(x, priority))
  }

  // The comparison of the sort, in plain terms; a list is not longer than the largest integer.
  lemma BeforeExact(a: Campaign, b: Campaign, priority: seq<string>)
    requires |priority| <= MAX_INT
    ensures Before(a, b, priority) <==>
            ListedBefore(a.game.name, b.game.name, priority) ||
            (ListedAlike(a.game.name, b.game.name, priority) && a.endsAt < b.endsAt)
    ensures Tied(a, b, priority) <==> Peers(a, b, priority)
  {
    IndexOrder(a.game.name, b.game.name, priority);
    IndexOrder(b.game.name, a.game.name, priority);
  }

  lemma IndexOrder(a: string, b: string, priority: seq<string>)
    requires |priority| <= MAX_INT
    ensures PriorityIndex(a, priority) < PriorityIndex(b, priority) <==> ListedBefore(a, b, priority)
    ensures PriorityIndex(a, priority) == PriorityIndex(b, priority) <==> ListedAlike(a, b, priority)
  {
    IndexIsFirst(a, priority);
    IndexIsFirst(b, priority);
    var pa := PriorityIndex(a, priority);
    if pa < PriorityIndex(b, priority) {
      assert priority[pa] == a && forall q :: 0 <= q <= pa ==> priority[q] != b;
    }
  }

  lemma IndexIsFirst(game: string, priority: seq<string>)
    requires |priority| <= MAX_INT
    ensures var r := PriorityIndex(game, priority);
            && (forall q :: 0 <= q < r && q < |priority| ==> priority[q] != game)
            && if game in priority then r < |priority| && priority[r] == game else r == MAX_INT
  {
    PriorityIndexIsFirst(game, priority, 0);
    var r := PriorityIndex(game, priority);
    if game in priority {
      assert forall q :: 0 <= q < r ==> priority[..r][q] == priority[q];
    }
  }

  // Filtering by two predicates that agree keeps the same elements.
  lemma {:induction false} FilterSame(s: seq<Campaign>, p: Campaign -> bool, q: Campaign -> bool)
    requires forall c :: p(c) <==> q(c)
    ensures Filter(s, p) == Filter(s, q)
  {
    if s != [] {
      FilterSame(s[1..], p, q);
    }
  }

  lemma RankedInPriorityOrder(s: seq<Campaign>, priority: seq<string>)
    requires |priority| <= MAX_INT
    ensures InPriorityOrder(s, Ranked(s, priority), priority)
  {
    var out := Ranked(s, priority);
    RankedIsPermutation(s, priority);
    RankedIsStableSort(s, priority);
    forall i, j | 0 <= i < j < |out|
      ensures !ListedBefore(out[j].game.name, out[i].game.name, priority)
      ensures ListedAlike(out[i].game.name, out[j].game.name, priority) ==> out[i].endsAt <= out[j].endsAt
    {
      BeforeExact(out[j], out[i], priority);
    }
    forall x: Campaign
      ensures Filter(out, PeersOf(x, priority)) == Filter(s, PeersOf(x, priority))
    {
      PeersAreTied(out, x, priority);
      PeersAreTied(s, x, priority);
      assert Ties(out, x, priority) == Ties(s, x, priority);
    }
  }

  lemma PeersAreTied(s: seq<Campaign>, x: Campaign, priority: seq<string>)
    requires |priority| <= MAX_INT
    ensures Filter(s, PeersOf(x, priority)) == Ties(s, x, priority)
  {
    forall c
      ensures PeersOf(x, priority)(c) <==> TiedWith(x, priority)(c)
    {
      BeforeExact(c, x, priority);
    }
    FilterSame(s, PeersOf(x, priority), TiedWith(x, priority));
  }

  // ------------------------------------------------------------------
  // A stable sort is unique, so the algorithm behind it does not matter
  // ------------------------------------------------------------------

  lemma TiesNonEmpty(s: seq<Campaign>, x: Campaign, priority: seq<string>)
    requires x in s
    ensures x in Ties(s, x, priority)
  {
    FilterMember(s, TiedWith(x, priority), x);
  }

  lemma {:induction false} FilterMember<T(!new)>(s: seq<T>, p: T -> bool, x: T)
    ensures x in Filter(s, p) <==> x in s && p(x)
  {
    if s != [] {
      FilterMember(s[1..], p, x);
      assert s == [s[0]] + s[1..];
    }
  }

  lemma TiesTail(s: seq<Campaign>, x: Campaign, priority: seq<string>)
    requires s != []
    ensures Ties(s, x, priority) ==
            (if Tied(s[0], x, priority) then [s[0]] else []) + Ties(s[1..], x, priority)
  {
  }

  lemma CancelPrefix(pre: seq<Campaign>, u: seq<Campaign>, v: seq<Campaign>)
    requires pre + u == pre + v
    ensures u == v
  {
    assert (pre + u)[|pre|..] == u;
    assert (pre + v)[|pre|..] == v;
  }

  lemma SortedHeads(a: seq<Campaign>, b: seq<Campaign>, priority: seq<string>)
    requires a != [] && b != []
    requires Sorted(a, priority) && Sorted(b, priority)
    requires forall x: Campaign :: Ties(a, x, priority) == Ties(b, x, priority)
    ensures a[0] == b[0]
  {
    TiesNonEmpty(a, a[0], priority);
    TiesNonEmpty(b, b[0], priority);
    FilterMember(b, TiedWith(a[0], priority), a[0]);
    FilterMember(a, TiedWith(b[0], priority), b[0]);
    assert a[0] in b && b[0] in a;
    assert Tied(a[0], b[0], priority);
    assert Ties(a, a[0], priority)[0] == a[0];
    assert Ties(b, a[0], priority)[0] == b[0];
  }

  lemma {:induction false} StableSortUnique(a: seq<Campaign>, b: seq<Campaign>, priority: seq<string>)
    requires Sorted(a, priority) && Sorted(b, priority)
    requires forall x: Campaign :: Ties(a, x, priority) == Ties(b, x, priority)
    ensures a == b
  {
    if a == [] && b != [] {
      TiesNonEmpty(b, b[0], priority);
    } else if a != [] && b == [] {
      TiesNonEmpty(a, a[0], priority);
    } else if a != [] {
      SortedHeads(a, b, priority);
      forall x: Campaign
        ensures Ties(a[1..], x, priority) == Ties(b[1..], x, priority)
      {
        TiesTail(a, x, priority);
        TiesTail(b, x, priority);
        assert Ties(a, x, priority) == Ties(b, x, priority);
        CancelPrefix(if Tied(a[0], x, priority) then [a[0]] else [], Ties(a[1..], x, priority), Ties(b[1..], x, priority));
      }
      StableSortUnique(a[1..], b[1..], priority);
    }
  }

  // Any stable sort of s is the ranking.
  lemma SortByPriorityIsTheStableSort(s: seq<Campaign>, out: seq<Campaign>, priority: seq<string>)
    ensures IsStableSort(s, out, priority) <==> out == Ranked(s, priority)
  {
    RankedIsStableSort(s, priority);
    if IsStableSort(s, out, priority) {
      StableSortUnique(out, Ranked(s, priority), priority);
    }
  }

  // ------------------------------------------------------------------
  // Sorting commutes with filtering
  // ------------------------------------------------------------------

  lemma {:induction false} FilterSorted(s: seq<Campaign>, p: Campaign -> bool, priority: seq<string>)
    requires Sorted(s, priority)
    ensures Sorted(Filter(s, p), priority)
  {
    if s != [] {
      FilterSorted(s[1..], p, priority);
      var rest := Filter(s[1..], p);
      forall i | 0 <= i < |rest|
        ensures !Before(rest[i], s[0], priority)
      {
        FilterMember(s[1..], p, rest[i]);
        var k :| 0 <= k < |s[1..]| && s[1..][k] == rest[i];
        assert s[k + 1] == rest[i];
      }
    }
  }

  lemma RankingCommutesWithFilter(s: seq<Campaign>, p: Campaign -> bool, priority: seq<string>)
    ensures Filter(Ranked(s, priority), p) == Ranked(Filter(s, p), priority)
  {
    var r := Ranked(s, priority);
    RankedIsStableSort(s, priority);
    RankedIsStableSort(Filter(s, p), priority);
    FilterSorted(r, p, priority);
    forall x: Campaign
      ensures Ties(Filter(r, p), x, priority) == Ties(Filter(s, p), x, priority)
    {
      var q := TiedWith(x, priority);
      FilterSwap(r, p, q);
      FilterSwap(s, p, q);
      assert Ties(r, x, priority) == Ties(s, x, priority);
    }
    StableSortUnique(Filter(r, p), Ranked(Filter(s, p), priority), priority);
  }

  // ------------------------------------------------------------------
  // Selection
  // ------------------------------------------------------------------

  const HOUR := 3600

  ghost predicate Qualifies(c: Campaign, exclude: seq<string>, now: int, badges: bool, matches: Keywords) {
    && c.game.name !in exclude
    && Eligible(c, badges)
    && CanEarnWithin(c, now, now + HOUR, matches)
  }

  // r is the first campaign of s that satisfies p, or None when none does.
  ghost predicate IsFirst(s: seq<Campaign>, p: Campaign -> bool, r: Option<Campaign>) {
    match r
    case Some(c) => exists k :: 0 <= k < |s| && s[k] == c && p(c) && forall j :: 0 <= j < k ==> !p(s[j])
    case None => forall j :: 0 <= j < |s| ==> !p(s[j])
  }

  // The head of a filtered sequence is the first element that passes the filter.
  lemma {:induction false} FilterHead(s: seq<Campaign>, p: Campaign -> bool)
    ensures IsFirst(s, p, if Filter(s, p) == [] then None else Some(Filter(s, p)[0]))
  {
    if s != [] && !p(s[0]) {
      FilterHead(s[1..], p);
      var f := Filter(s[1..], p);
      assert forall j :: 0 < j < |s| ==> s[j] == s[1..][j - 1];
      if f != [] {
        var k :| 0 <= k < |s[1..]| && s[1..][k] == f[0] && p(f[0]) && forall j :: 0 <= j < k ==> !p(s[1..][j]);
        assert s[k + 1] == f[0];
        assert forall j :: 0 <= j < k + 1 ==> !p(s[j]);
      }
    }
  }

  ghost function Qualifier(exclude: seq<string>, now: int, badges: bool, matches: Keywords): Campaign -> bool {
    c => Qualifies(c, exclude, now, badges, matches)
  }

  lemma FilterStep(s: seq<Campaign>, k: nat, p: Campaign -> bool)
    requires k < |s|
    ensures Filter(s[..k + 1], p) == Filter(s[..k], p) + if p(s[k]) then [s[k]] else []
  {
    assert s[..k + 1] == s[..k] + [s[k]];
    FilterAppend(s[..k], [s[k]], p);
  }

  method ExcludeSet(exclude: seq<string>) returns (excluded: set<string>)
    ensures forall g :: g in excluded <==> g in exclude
  {
    excluded := {};
    for k := 0 to |exclude|
      invariant forall g :: g in excluded <==> g in exclude[..k]
    {
      excluded := excluded + {exclude[k]};
    }
    assert exclude[..|exclude|] == exclude;
  }

  // The winner is the first campaign of the whole ranking, filtered or not, that qualifies.
  method SelectCampaign(candidates: seq<Campaign>, priority: seq<string>, exclude: seq<string>, now: int,
                        badges: bool, matches: Keywords)
    returns (r: Option<Campaign>)
    ensures IsFirst(Ranked(candidates, priority), Qualifier(exclude, now, badges, matches), r)
    ensures |priority| <= MAX_INT ==> IsBestOf(candidates, Selector(exclude, now, badges, matches), priority, r)
  {
    ghost var p := Qualifier(exclude, now, badges, matches);
    var excluded := ExcludeSet(exclude);
    var filtered: seq<Campaign> := [];
    for k := 0 to |candidates|
      invariant filtered == Filter(candidates[..k], p)
    {
      var c := candidates[k];
      FilterStep(candidates, k, p);
      if c.game.name in excluded {
        continue;
      }
      var within := CanEarnBefore(c, now, now + HOUR, matches);
      if !Eligible(c, badges) || !within {
        continue;
      }
      filtered := filtered + [c];
    }
    assert candidates[..|candidates|] == candidates;
    FirstOfRanking(candidates, p, priority);
    if |priority| <= MAX_INT {
      BestOfRanking(candidates, priority, exclude, now, badges, matches);
    }
    if |filtered| == 0 {
      return None;
    }
    filtered := SortByPriority(filtered, priority);
    return Some(filtered[0]);
  }

  // Picking the head after filtering and sorting is picking the first match of the full ranking.
  lemma FirstOfRanking(s: seq<Campaign>, p: Campaign -> bool, priority: seq<string>)
    ensures var f := Filter(s, p);
            IsFirst(Ranked(s, priority), p, if f == [] then None else Some(Ranked(f, priority)[0]))
  {
    FilterHead(Ranked(s, priority), p);
    RankingCommutesWithFilter(s, p, priority);
  }

  // A campaign that may be selected: its game is not excluded, it is eligible, and
  // it passes the endpoint test for the next hour.
  ghost predicate Selectable(c: Campaign, exclude: seq<string>, now: int, badges: bool, matches: Keywords) {
    && c.game.name !in exclude
    && (if exists d, b :: d in c.drops && b in d.benefits && (b.kind == Badge || b.kind == Emote) then badges else c.linked)
    && CanEarnWithin(c, now, now + 3600, matches)
  }

  ghost function Selector(exclude: seq<string>, now: int, badges: bool, matches: Keywords): Campaign -> bool {
    c => Selectable(c, exclude, now, badges, matches)
  }

  // Position k holds best, and no peer of it that p admits comes before.
  predicate FirstOfPeers(candidates: seq<Campaign>, k: nat, best: Campaign, p: Campaign -> bool, priority: seq<string>) {
    k < |candidates| && candidates[k] == best &&
    forall j :: 0 <= j < k && p(candidates[j]) ==> !Peers(candidates[j], best, priority)
  }

  // r is a candidate that p admits: none of those is listed before it, of those listed
  // alike none ends before it, and of those that end with it none comes before it.
  // None: there is none.
  ghost predicate IsBestOf(candidates: seq<Campaign>, p: Campaign -> bool, priority: seq<string>, r: Option<Campaign>) {
    match r
    case None => forall c :: c in candidates ==> !p(c)
    case Some(best) =>
      && best in candidates && p(best)
      && (forall c :: c in candidates && p(c) ==>
            !ListedBefore(c.game.name, best.game.name, priority) &&
            (ListedAlike(c.game.name, best.game.name, priority) ==> best.endsAt <= c.endsAt))
      && exists k :: FirstOfPeers(candidates, k, best, p, priority)
  }

  lemma SelectableExact(c: Campaign, exclude: seq<string>, now: int, badges: bool, matches: Keywords)
    ensures Selector(exclude, now, badges, matches)(c) <==> Qualifier(exclude, now, badges, matches)(c)
  {
  }

  // Two predicates that admit the same campaigns have the same best.
  lemma SameBest(candidates: seq<Campaign>, p: Campaign -> bool, q: Campaign -> bool, priority: seq<string>, r: Option<Campaign>)
    requires IsBestOf(candidates, p, priority, r)
    requires forall c :: p(c) <==> q(c)
    ensures IsBestOf(candidates, q, priority, r)
  {
    if r.Some? {
      var k :| FirstOfPeers(candidates, k, r.value, p, priority);
      assert FirstOfPeers(candidates, k, r.value, q, priority);
    }
  }

  lemma BestOfRanking(candidates: seq<Campaign>, priority: seq<string>, exclude: seq<string>, now: int, badges: bool,
                      matches: Keywords)
    requires |priority| <= MAX_INT
    ensures var f := Filter(candidates, Qualifier(exclude, now, badges, matches));
            IsBestOf(candidates, Selector(exclude, now, badges, matches), priority,
                     if f == [] then None else Some(Ranked(f, priority)[0]))
  {
    var p := Qualifier(exclude, now, badges, matches);
    var f := Filter(candidates, p);
    var r := if f == [] then None else Some(Ranked(f, priority)[0]);
    if f != [] {
      HeadIsBest(candidates, p, priority);
    } else {
      forall c | c in candidates
        ensures !p(c)
      {
        assert c !in f;
      }
    }
    forall c
      ensures p(c) <==> Selector(exclude, now, badges, matches)(c)
    {
      SelectableExact(c, exclude, now, badges, matches);
    }
    SameBest(candidates, p, Selector(exclude, now, badges, matches), priority, r);
  }

  // The head of a ranking, compared with everything ranked.
  lemma HeadLeads(f: seq<Campaign>, priority: seq<string>)
    requires |priority| <= MAX_INT && f != []
    ensures var best := Ranked(f, priority)[0];
            && best in f && Filter(f, PeersOf(best, priority)) != [] && Filter(f, PeersOf(best, priority))[0] == best
            && forall c :: c in f ==>
                 !ListedBefore(c.game.name, best.game.name, priority) &&
                 (ListedAlike(c.game.name, best.game.name, priority) ==> best.endsAt <= c.endsAt)
  {
    var out := Ranked(f, priority);
    var best := out[0];
    RankedInPriorityOrder(f, priority);
    assert best in multiset(out);
    assert PeersOf(best, priority)(best);
    assert Filter(out, PeersOf(best, priority)) == Filter(f, PeersOf(best, priority));
    forall c | c in f
      ensures !ListedBefore(c.game.name, best.game.name, priority)
      ensures ListedAlike(c.game.name, best.game.name, priority) ==> best.endsAt <= c.endsAt
    {
      assert c in multiset(f);
      assert c in out;
    }
  }

  // The head of the ranked survivors, compared with every survivor.
  lemma HeadIsBest(candidates: seq<Campaign>, p: Campaign -> bool, priority: seq<string>)
    requires |priority| <= MAX_INT && Filter(candidates, p) != []
    ensures IsBestOf(candidates, p, priority, Some(Ranked(Filter(candidates, p), priority)[0]))
  {
    var f := Filter(candidates, p);
    var best := Ranked(f, priority)[0];
    HeadLeads(f, priority);
    var k := FirstPeer(candidates, p, PeersOf(best, priority));
    assert FirstOfPeers(candidates, k, best, p, priority) by {
      forall j | 0 <= j < k && p(candidates[j])
        ensures !Peers(candidates[j], best, priority)
      {
        assert !PeersOf(best, priority)(candidates[j]);
      }
    }
  }

  // Where the first element that passes both filters stands.
  lemma {:induction false} FirstPeer(s: seq<Campaign>, p: Campaign -> bool, q: Campaign -> bool) returns (k: nat)
    requires Filter(Filter(s, p), q) != []
    ensures k < |s| && s[k] == Filter(Filter(s, p), q)[0] && forall j :: 0 <= j < k && p(s[j]) ==> !q(s[j])
  {
    var rest := s[1..];
    if !p(s[0]) {
      assert Filter(s, p) == Filter(rest, p);
      k := FirstPeer(rest, p, q);
      k := k + 1;
    } else if q(s[0]) {
      assert Filter(s, p)[0] == s[0];
      k := 0;
    } else {
      assert Filter(s, p)[1..] == Filter(rest, p);
      k := FirstPeer(rest, p, q);
      k := k + 1;
    }
    forall j | 0 <= j < k && p(s[j])
      ensures !q(s[j])
    {
      assert j > 0 ==> s[j] == rest[j - 1];
    }
  }
}
