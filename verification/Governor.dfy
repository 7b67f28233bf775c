/** The maintenance loop: a planner that only decides, and an executor that only obeys, within a budget. */
module Governor {
  import opened Entry

  datatype Continuity = Healthy | Degraded | Unavailable

  /** One census entry as the planner sees it. Its index is its position in the census. */
  datatype View = View(index: nat, identity: nat, tier: TierId, state: EntryState)

  datatype Observation = Observation(
    capacity: map<TierId, nat>,
    used: map<TierId, nat>,
    continuity: map<TierId, Continuity>,
    census: seq<View>)

  datatype Settings = Settings(maxMoves: nat, maxRebinds: nat, pressureThreshold: real, hotHeat: nat)

  datatype Skip = NoHeatSource | NoCensus

  datatype Plan = Plan(rebind: seq<TierId>, promote: seq<nat>, demote: seq<nat>, skipped: seq<Skip>)

  type Heat = map<nat, nat>

  function HeatOf(heat: Heat, v: View): nat {
    if v.identity in heat then heat[v.identity] else 0
  }

  // ---------------------------------------------------------------- selection

  predicate IsHot(v: View, heat: Heat, s: Settings) {
    v.state.Ready? && v.tier.IsCacheRung() && v.tier.Index() > 0 && HeatOf(heat, v) >= s.hotHeat
  }

  const U32_MAX: nat := 0xffff_ffff

  function Saturated(n: nat): real {
    (if n <= U32_MAX then n else U32_MAX) as real
  }

  /** The share of a rung in use, where the rung has a capacity to speak of. */
  function Occupancy(o: Observation, rung: TierId): Option<real> {
    if rung !in o.capacity || o.capacity[rung] == 0 then None
    else Some(Saturated(if rung in o.used then o.used[rung] else 0) / Saturated(o.capacity[rung]))
  }

  const EPSILON: real := 1.0 / 4503599627370496.0

  predicate IsPressed(o: Observation, rung: TierId, s: Settings) {
    rung.IsCacheRung() && Occupancy(o, rung).Some? && Occupancy(o, rung).value + EPSILON >= s.pressureThreshold
  }

  predicate IsCold(v: View, o: Observation, heat: Heat, s: Settings) {
    v.state.Ready? && v.tier.IsCacheRung() && v.tier.Index() < LAST_CACHE_RUNG_INDEX
    && IsPressed(o, v.tier, s) && HeatOf(heat, v) == 0
  }

  function Hot(views: seq<View>, heat: Heat, s: Settings): (r: seq<View>)
    ensures forall v :: v in r <==> v in views && IsHot(v, heat, s)
  {
    if views == [] then []
    else (if IsHot(views[0], heat, s) then [views[0]] else []) + Hot(views[1..], heat, s)
  }

  function Cold(views: seq<View>, o: Observation, heat: Heat, s: Settings): (r: seq<View>)
    ensures forall v :: v in r <==> v in views && IsCold(v, o, heat, s)
  {
    if views == [] then []
    else (if IsCold(views[0], o, heat, s) then [views[0]] else []) + Cold(views[1..], o, heat, s)
  }

  // ---------------------------------------------------------------- order

  /** Hotter first; between equals, the later census entry first. */
  predicate Before(x: View, y: View, heat: Heat) {
    HeatOf(heat, x) > HeatOf(heat, y) || (HeatOf(heat, x) == HeatOf(heat, y) && x.index >= y.index)
  }

  predicate Ordered(views: seq<View>, heat: Heat) {
    forall i, j :: 0 <= i < j < |views| ==> Before(views[i], views[j], heat)
  }

  function Insert(v: View, views: seq<View>, heat: Heat): (r: seq<View>)
    ensures multiset(r) == multiset(views) + multiset{v}
    ensures forall x :: x in r ==> x == v || x in views
  {
    if views == [] || Before(v, views[0], heat) then [v] + views
    else
      assert views == [views[0]] + views[1..];
      [views[0]] + Insert(v, views[1..], heat)
  }

  lemma {:induction false} InsertKeepsOrder(v: View, views: seq<View>, heat: Heat)
    requires Ordered(views, heat)
    ensures Ordered(Insert(v, views, heat), heat)
  {
    if views != [] && !Before(v, views[0], heat) {
      InsertKeepsOrder(v, views[1..], heat);
      var tail := Insert(v, views[1..], heat);
      forall j | 0 <= j < |tail| ensures Before(views[0], tail[j], heat) {
        assert tail[j] in tail;
      }
    } else if views != [] {
      forall j | 0 <= j < |views| ensures Before(v, views[j], heat) {
        assert j > 0 ==> Before(views[0], views[j], heat);
      }
    }
  }

  function Sort(views: seq<View>, heat: Heat): (r: seq<View>)
    ensures multiset(r) == multiset(views) && Ordered(r, heat)
  {
    if views == [] then []
    else
      assert views == [views[0]] + views[1..];
      InsertKeepsOrder(views[0], Sort(views[1..], heat), heat);
      Insert(views[0], Sort(views[1..], heat), heat)
  }

  // ---------------------------------------------------------------- the plan

  function Take<T>(s: seq<T>, n: nat): (r: seq<T>)
    ensures |r| == if n <= |s| then n else |s|
    ensures r <= s
  {
    if n <= |s| then s[..n] else s
  }

  function Indices(views: seq<View>): (r: seq<nat>)
    ensures |r| == |views| && forall i :: 0 <= i < |views| ==> r[i] == views[i].index
  {
    seq(|views|, i requires 0 <= i < |views| => views[i].index)
  }

  predicate NeedsRebind(o: Observation, rung: TierId) {
    rung.IsCacheRung() && rung in o.continuity && !o.continuity[rung].Healthy?
  }

  /** Degraded cache rungs with an index below `n`, deepest first. */
  function DegradedBelow(o: Observation, n: nat): (r: seq<TierId>)
    requires n <= LAST_CACHE_RUNG_INDEX + 1
    ensures forall t: TierId :: t in r <==> NeedsRebind(o, t) && t.Index() < n
    ensures forall i, j :: 0 <= i < j < |r| ==> r[i].Index() > r[j].Index()
  {
    if n == 0 then []
    else
      var t, rest := FromIndex(n - 1).value, DegradedBelow(o, n - 1);
      if NeedsRebind(o, t) then [t] + rest else rest
  }

  function PlanTick(o: Observation, heat: Heat, s: Settings): Plan {
    var rebind := Take(DegradedBelow(o, LAST_CACHE_RUNG_INDEX + 1), s.maxRebinds);
    if o.census == [] then Plan(rebind, [], [], [NoCensus])
    else if |heat| == 0 then Plan(rebind, [], [], [NoHeatSource])
    else
      var promoted := Take(Sort(Hot(o.census, heat, s), heat), s.maxMoves);
      var demote := if |promoted| < s.maxMoves then Indices(Cold(o.census, o, heat, s)) else [];
      Plan(rebind, Indices(promoted), demote, [])
  }

  /** Each view's index is its place in the census. */
  predicate Numbered(census: seq<View>) {
    forall i :: 0 <= i < |census| ==> census[i].index == i
  }

  lemma SortKeepsMembers(views: seq<View>, heat: Heat, v: View)
    ensures v in Sort(views, heat) <==> v in views
  {
    assert v in Sort(views, heat) <==> v in multiset(Sort(views, heat));
    assert v in views <==> v in multiset(views);
  }

  /**
   The plan promotes as many hot entries as the budget allows, hottest first, and no hot entry left out
   comes before one chosen.
   */
  lemma PlanPromotesTheHottest(o: Observation, heat: Heat, s: Settings)
    requires Numbered(o.census) && o.census != [] && |heat| > 0
    ensures var p := PlanTick(o, heat, s).promote;
            var hot := Hot(o.census, heat, s);
            && |p| == (if s.maxMoves <= |hot| then s.maxMoves else |hot|)
            && (forall i :: 0 <= i < |p| ==> p[i] < |o.census| && IsHot(o.census[p[i]], heat, s))
            && (forall i, j :: 0 <= i < j < |p| ==> p[i] != p[j] && Before(o.census[p[i]], o.census[p[j]], heat))
            && (forall v, i :: v in hot && v.index !in p && 0 <= i < |p| ==> Before(o.census[p[i]], v, heat))
  {
    var hot := Hot(o.census, heat, s);
    var sorted := Sort(hot, heat);
    var p := PlanTick(o, heat, s).promote;
    forall i | 0 <= i < |p| ensures p[i] < |o.census| && o.census[p[i]] == sorted[i] && IsHot(sorted[i], heat, s) {
      ChosenAreSorted(o, heat, s, i);
    }
    forall v, i | v in hot && v.index !in p && 0 <= i < |p| ensures Before(o.census[p[i]], v, heat) {
      LeftOutAreColder(hot, heat, s.maxMoves, v, i);
    }
    SortKeepsLength(hot, heat);
    HotClimbs(o.census, heat, s);
    forall i, j | 0 <= i < j < |p| ensures p[i] != p[j] {
      SortedNamesOnce(hot, heat, i, j);
    }
  }

  /** Whatever a prefix of the sorted list leaves out comes after everything in it. */
  lemma LeftOutAreColder(views: seq<View>, heat: Heat, n: nat, v: View, i: nat)
    requires v in views && v.index !in Indices(Take(Sort(views, heat), n)) && i < |Take(Sort(views, heat), n)|
    ensures Before(Sort(views, heat)[i], v, heat)
  {
    var sorted := Sort(views, heat);
    var p := Indices(Take(sorted, n));
    SortKeepsMembers(views, heat, v);
    assert forall l :: 0 <= l < |p| ==> p[l] == sorted[l].index && sorted[l].index in p;
    var k :| 0 <= k < |sorted| && sorted[k] == v;
    assert k >= |p|;
  }

  /** Indices only grow along the list. */
  predicate Climbs(views: seq<View>) {
    forall i, j :: 0 <= i < j < |views| ==> views[i].index < views[j].index
  }

  lemma {:induction false} HotClimbs(views: seq<View>, heat: Heat, s: Settings)
    requires Climbs(views)
    ensures Climbs(Hot(views, heat, s))
  {
    if views != [] {
      HotClimbs(views[1..], heat, s);
      var tail := Hot(views[1..], heat, s);
      forall j | 0 <= j < |tail| ensures views[0].index < tail[j].index {
        assert tail[j] in tail;
      }
    }
  }

  lemma {:induction false} ClimbingNamesOnce(views: seq<View>, v: View)
    requires Climbs(views)
    ensures multiset(views)[v] <= 1
  {
    if views != [] {
      ClimbingNamesOnce(views[1..], v);
      assert views == [views[0]] + views[1..];
      assert views[0] !in views[1..];
    }
  }

  lemma SortedNamesOnce(views: seq<View>, heat: Heat, i: nat, j: nat)
    requires Climbs(views) && i < j < |Sort(views, heat)|
    ensures Sort(views, heat)[i] != Sort(views, heat)[j]
  {
    var sorted := Sort(views, heat);
    assert sorted == sorted[..j] + sorted[j..];
    assert sorted[i] in sorted[..j] && sorted[j] in sorted[j..];
    ClimbingNamesOnce(views, sorted[i]);
  }

  lemma SortKeepsLength(views: seq<View>, heat: Heat)
    ensures |Sort(views, heat)| == |views|
  {
    assert |multiset(Sort(views, heat))| == |multiset(views)|;
  }

  /** The chosen entries are the front of the sorted list. */
  lemma ChosenAreSorted(o: Observation, heat: Heat, s: Settings, i: nat)
    requires Numbered(o.census) && o.census != [] && |heat| > 0 && i < |PlanTick(o, heat, s).promote|
    ensures var sorted := Sort(Hot(o.census, heat, s), heat);
            var p := PlanTick(o, heat, s).promote;
            i < |sorted| && p[i] < |o.census| && o.census[p[i]] == sorted[i] && IsHot(sorted[i], heat, s)
  {
    var sorted := Sort(Hot(o.census, heat, s), heat);
    SortKeepsMembers(Hot(o.census, heat, s), heat, sorted[i]);
    assert sorted[i] in o.census;
  }

  /** Whatever a prefix of the degraded rungs leaves out lies above everything in it. */
  lemma LeftOutAreShallower(o: Observation, n: nat, t: TierId)
    requires NeedsRebind(o, t)
    ensures var r := Take(DegradedBelow(o, LAST_CACHE_RUNG_INDEX + 1), n);
            t !in r ==> |r| == n && forall x :: x in r ==> x.Index() > t.Index()
  {
    var all := DegradedBelow(o, LAST_CACHE_RUNG_INDEX + 1);
    assert t in all;
    var k :| 0 <= k < |all| && all[k] == t;
  }

  /** The rungs rebound are the deepest degraded cache rungs, deepest first and each once, never the authority. */
  lemma PlanRebindsTheDeepest(o: Observation, heat: Heat, s: Settings)
    ensures var r := PlanTick(o, heat, s).rebind;
            && |r| <= s.maxRebinds
            && (forall t :: t in r ==> NeedsRebind(o, t))
            && (forall i, j :: 0 <= i < j < |r| ==> r[i].Index() > r[j].Index())
            && (forall t: TierId :: NeedsRebind(o, t) && t !in r ==>
                  |r| == s.maxRebinds && forall x :: x in r ==> x.Index() > t.Index())
  {
    var r := Take(DegradedBelow(o, LAST_CACHE_RUNG_INDEX + 1), s.maxRebinds);
    assert PlanTick(o, heat, s).rebind == r;
    forall t: TierId | NeedsRebind(o, t) && t !in r
      ensures |r| == s.maxRebinds && forall x :: x in r ==> x.Index() > t.Index()
    {
      LeftOutAreShallower(o, s.maxRebinds, t);
    }
  }

  /** With a hot threshold of at least one read, no entry is told to move both ways, and every move stays on the cache rungs. */
  lemma PlannedMovesAreCoherent(o: Observation, heat: Heat, s: Settings)
    requires Numbered(o.census)
    ensures var plan := PlanTick(o, heat, s);
            && (s.hotHeat >= 1 ==> forall i :: i in plan.promote ==> i !in plan.demote)
            && (forall i :: i in plan.promote ==> i < |o.census| && 1 <= o.census[i].tier.Index() <= LAST_CACHE_RUNG_INDEX)
            && (forall i :: i in plan.demote ==> i < |o.census| && o.census[i].tier.Index() + 1 <= LAST_CACHE_RUNG_INDEX)
  {
    var plan := PlanTick(o, heat, s);
    if o.census != [] && |heat| > 0 {
      forall i | i in plan.promote ensures i < |o.census| && IsHot(o.census[i], heat, s) {
        PlanPromotesTheHottest(o, heat, s);
      }
      forall i | i in plan.demote ensures i < |o.census| && IsCold(o.census[i], o, heat, s) {
        PlanDemotesEveryColdEntry(o, heat, s, i);
      }
    }
  }

  /** Demotion is not cut to the budget: while any of it is left after the promotions, every unread entry on a pressed rung is named. */
  lemma PlanDemotesEveryColdEntry(o: Observation, heat: Heat, s: Settings, i: nat)
    requires Numbered(o.census) && |heat| > 0
    ensures i in PlanTick(o, heat, s).demote <==>
            |Hot(o.census, heat, s)| < s.maxMoves && i < |o.census| && IsCold(o.census[i], o, heat, s)
  {
    var plan, cold := PlanTick(o, heat, s), Cold(o.census, o, heat, s);
    if o.census != [] {
      SortKeepsLength(Hot(o.census, heat, s), heat);
      if i in plan.demote {
        var k :| 0 <= k < |plan.demote| && plan.demote[k] == i;
        assert cold[k] in cold;
      } else if |Hot(o.census, heat, s)| < s.maxMoves && i < |o.census| {
        assert o.census[i] in o.census;
      }
    }
  }

  /** Without a census, or without a single read on record, nothing is moved, and the plan says which was missing. */
  lemma NoMovesWithoutEvidence(o: Observation, heat: Heat, s: Settings)
    ensures var plan := PlanTick(o, heat, s);
            && plan.skipped == (if o.census == [] then [NoCensus] else if heat == map[] then [NoHeatSource] else [])
            && (plan.skipped != [] ==> plan.promote == [] && plan.demote == [])
  {
    assert |heat| == 0 <==> heat == map[];
  }

  /** How often the entry was read. */
  function Reads(heat: Heat, v: View): nat {
    if v.identity in heat then heat[v.identity] else 0
  }

  lemma HotMeans(v: View, heat: Heat, s: Settings)
    ensures IsHot(v, heat, s) <==> v.state.Ready? && !v.tier.L0? && !v.tier.L6? && Reads(heat, v) >= s.hotHeat
  {
  }

  lemma ChosenOrSpared(o: Observation, heat: Heat, s: Settings, v: View)
    requires o.census != [] && |heat| > 0 && v in Hot(o.census, heat, s) && |PlanTick(o, heat, s).promote| < s.maxMoves
    ensures v.index in PlanTick(o, heat, s).promote
  {
    var hot := Hot(o.census, heat, s);
    var p := PlanTick(o, heat, s).promote;
    SortKeepsLength(hot, heat);
    SortKeepsMembers(hot, heat, v);
    var k :| 0 <= k < |Sort(hot, heat)| && Sort(hot, heat)[k] == v;
    assert p[k] == v.index;
  }

  /** With budget to spare, an entry is promoted if and only if it is ready on L1 to L5 and was read at least `hotHeat` times; without, only if. */
  lemma PromotionIsEarned(o: Observation, heat: Heat, s: Settings, i: nat)
    requires Numbered(o.census) && o.census != [] && heat != map[] && i < |o.census|
    ensures var p, v := PlanTick(o, heat, s).promote, o.census[i];
            var earned := v.state.Ready? && !v.tier.L0? && !v.tier.L6? && Reads(heat, v) >= s.hotHeat;
            && (i in p ==> earned)
            && (|p| < s.maxMoves ==> (i in p <==> earned))
  {
    assert |heat| > 0;
    var v := o.census[i];
    assert v in o.census;
    HotMeans(v, heat, s);
    PlanPromotesTheHottest(o, heat, s);
    if IsHot(v, heat, s) && |PlanTick(o, heat, s).promote| < s.maxMoves {
      ChosenOrSpared(o, heat, s, v);
    }
  }

  /** Promotions come in descending order of reads, later census entries first among equals, and no entry left out outranks one chosen. */
  lemma PromotionsAreRanked(o: Observation, heat: Heat, s: Settings, i: nat, j: nat)
    requires Numbered(o.census) && i < j < |PlanTick(o, heat, s).promote|
    ensures var p := PlanTick(o, heat, s).promote;
            && p[i] < |o.census| && p[j] < |o.census|
            && var x, y := Reads(heat, o.census[p[i]]), Reads(heat, o.census[p[j]]);
            x > y || (x == y && p[i] > p[j])
  {
    PlanPromotesTheHottest(o, heat, s);
  }

  lemma NoneLeftOutOutranks(o: Observation, heat: Heat, s: Settings, i: nat, out: nat)
    requires Numbered(o.census) && i < |PlanTick(o, heat, s).promote| && out < |o.census| && out !in PlanTick(o, heat, s).promote
    requires o.census[out].state.Ready? && !o.census[out].tier.L0? && !o.census[out].tier.L6? && Reads(heat, o.census[out]) >= s.hotHeat
    ensures var p := PlanTick(o, heat, s).promote;
            && p[i] < |o.census|
            && var x, y := Reads(heat, o.census[p[i]]), Reads(heat, o.census[out]);
            x > y || (x == y && p[i] > out)
  {
    var v := o.census[out];
    assert v in o.census;
    HotMeans(v, heat, s);
    ChosenComesBefore(o, heat, s, i, v);
  }

  /** Every hot entry left out comes after every chosen one. */
  lemma ChosenComesBefore(o: Observation, heat: Heat, s: Settings, i: nat, v: View)
    requires Numbered(o.census) && i < |PlanTick(o, heat, s).promote|
    requires v in o.census && IsHot(v, heat, s) && v.index !in PlanTick(o, heat, s).promote
    ensures var p := PlanTick(o, heat, s).promote; p[i] < |o.census| && Before(o.census[p[i]], v, heat)
  {
    PlanPromotesTheHottest(o, heat, s);
    assert v in Hot(o.census, heat, s);
  }

  /** The share of a rung's `capacity` slots in use, each number cut at 32 bits. */
  function Share(used: nat, capacity: nat): real
    requires capacity > 0
  {
    (if used < 0x1_0000_0000 then used else 0xffff_ffff) as real / (if capacity < 0x1_0000_0000 then capacity else 0xffff_ffff) as real
  }

  /** While promotions leave budget, an unread ready entry above L5 is demoted if and only if its rung has a capacity and the share in use, give or take 2^-52, reaches the threshold. */
  lemma DemotionNeedsPressure(o: Observation, heat: Heat, s: Settings, i: nat, used: nat, capacity: nat)
    requires Numbered(o.census) && heat != map[] && i < |o.census| && |PlanTick(o, heat, s).promote| < s.maxMoves
    requires var v := o.census[i]; v.state.Ready? && !v.tier.L5? && !v.tier.L6? && Reads(heat, v) == 0
    requires used == (if o.census[i].tier in o.used then o.used[o.census[i].tier] else 0)
    requires capacity == (if o.census[i].tier in o.capacity then o.capacity[o.census[i].tier] else 0)
    ensures i in PlanTick(o, heat, s).demote <==>
            capacity > 0 && Share(used, capacity) + 1.0 / 4503599627370496.0 >= s.pressureThreshold
  {
    assert |heat| > 0;
    BudgetLeft(o, heat, s);
    ColdMeans(o.census[i], o, heat, s, used, capacity);
    PlanDemotesEveryColdEntry(o, heat, s, i);
  }

  lemma BudgetLeft(o: Observation, heat: Heat, s: Settings)
    requires o.census != [] && |heat| > 0
    ensures |Hot(o.census, heat, s)| < s.maxMoves <==> |PlanTick(o, heat, s).promote| < s.maxMoves
  {
    SortKeepsLength(Hot(o.census, heat, s), heat);
  }

  lemma ColdMeans(v: View, o: Observation, heat: Heat, s: Settings, used: nat, capacity: nat)
    requires used == (if v.tier in o.used then o.used[v.tier] else 0) && capacity == (if v.tier in o.capacity then o.capacity[v.tier] else 0)
    ensures IsCold(v, o, heat, s) <==>
            && v.state.Ready? && !v.tier.L5? && !v.tier.L6? && Reads(heat, v) == 0
            && capacity > 0 && Share(used, capacity) + 1.0 / 4503599627370496.0 >= s.pressureThreshold
  {
  }

  /** And no other entry is: neither one that was read, nor one that is not ready, nor one on L5 or the authority. */
  lemma OnlyUnreadEntriesAreDemoted(o: Observation, heat: Heat, s: Settings, i: nat)
    requires Numbered(o.census) && i in PlanTick(o, heat, s).demote
    ensures i < |o.census| && |PlanTick(o, heat, s).promote| < s.maxMoves
    ensures var v := o.census[i]; v.state.Ready? && !v.tier.L5? && !v.tier.L6? && Reads(heat, v) == 0
  {
    NoMovesWithoutEvidence(o, heat, s);
    assert |heat| > 0;
    BudgetLeft(o, heat, s);
    PlanDemotesEveryColdEntry(o, heat, s, i);
    var v := o.census[i];
    ColdMeans(v, o, heat, s, if v.tier in o.used then o.used[v.tier] else 0, if v.tier in o.capacity then o.capacity[v.tier] else 0);
  }

  /** Filling a rung never takes an entry off the list. */
  lemma FillingKeepsDemotions(o: Observation, heat: Heat, s: Settings, rung: TierId, used: nat, i: nat)
    requires Numbered(o.census) && i in PlanTick(o, heat, s).demote
    requires used >= if rung in o.used then o.used[rung] else 0
    ensures i in PlanTick(o.(used := o.used[rung := used]), heat, s).demote
  {
    var fuller := o.(used := o.used[rung := used]);
    OnlyUnreadEntriesAreDemoted(o, heat, s, i);
    var v := o.census[i];
    var u0 := if v.tier in o.used then o.used[v.tier] else 0;
    var u1 := if v.tier in fuller.used then fuller.used[v.tier] else 0;
    var c := if v.tier in o.capacity then o.capacity[v.tier] else 0;
    DemotionNeedsPressure(o, heat, s, i, u0, c);
    ShareGrows(u0, u1, c);
    DemotionNeedsPressure(fuller, heat, s, i, u1, c);
  }

  lemma ShareGrows(x: nat, y: nat, capacity: nat)
    requires x <= y && capacity > 0
    ensures Share(x, capacity) <= Share(y, capacity)
  {
    var c := (if capacity < 0x1_0000_0000 then capacity else 0xffff_ffff) as real;
    var a := (if x < 0x1_0000_0000 then x else 0xffff_ffff) as real;
    var b := (if y < 0x1_0000_0000 then y else 0xffff_ffff) as real;
    assert b / c - a / c == (b - a) / c >= 0.0;
  }

  /** A rung is rebound, budget allowing, if and only if it is a cache rung observed degraded or unavailable. */
  lemma RebindNeedsDegradation(o: Observation, heat: Heat, s: Settings, rung: TierId)
    ensures var r := PlanTick(o, heat, s).rebind;
            var bad := !rung.L6? && rung in o.continuity && (o.continuity[rung].Degraded? || o.continuity[rung].Unavailable?);
            (rung in r ==> bad) && (|r| < s.maxRebinds ==> (rung in r <==> bad))
  {
    RebindMeans(o, rung);
    PlanRebindsTheDeepest(o, heat, s);
  }

  lemma RebindMeans(o: Observation, rung: TierId)
    ensures NeedsRebind(o, rung) <==> !rung.L6? && rung in o.continuity && (o.continuity[rung].Degraded? || o.continuity[rung].Unavailable?)
  {
  }

  /** An entry is told to move both ways exactly when the threshold is zero, the budget outlasts the hot entries, and a cold entry could also climb. */
  lemma MovesBothWaysIff(o: Observation, heat: Heat, s: Settings)
    requires Numbered(o.census) && |heat| > 0
    ensures (exists i :: i in PlanTick(o, heat, s).promote && i in PlanTick(o, heat, s).demote) <==>
            s.hotHeat == 0 && |Hot(o.census, heat, s)| < s.maxMoves
            && exists v :: v in o.census && IsCold(v, o, heat, s) && v.tier.Index() > 0
  {
    var plan := PlanTick(o, heat, s);
    if o.census != [] {
      var hot, cold := Hot(o.census, heat, s), Cold(o.census, o, heat, s);
      SortKeepsLength(hot, heat);
      if i :| i in plan.promote && i in plan.demote {
        PlannedMovesAreCoherent(o, heat, s);
        var k :| 0 <= k < |plan.demote| && plan.demote[k] == i;
        assert cold[k] in cold && cold[k] in o.census && IsCold(cold[k], o, heat, s);
        assert o.census[i] == cold[k];
      }
      if s.hotHeat == 0 && |hot| < s.maxMoves {
        forall v | v in o.census && IsCold(v, o, heat, s) && v.tier.Index() > 0
          ensures v.index in plan.promote && v.index in plan.demote
        {
          SortKeepsMembers(hot, heat, v);
          var k :| 0 <= k < |Sort(hot, heat)| && Sort(hot, heat)[k] == v;
          assert plan.promote[k] == v.index;
          var l :| 0 <= l < |cold| && cold[l] == v;
          assert plan.demote[l] == v.index;
        }
      }
    }
  }

  /** With a threshold of zero an unread entry on a pressed rung counts as hot and as cold. */
  lemma ZeroThresholdMovesBothWays(identity: nat, reader: nat)
    requires identity != reader
    ensures var v := View(0, identity, L1, Ready);
            var o := Observation(map[L1 := 1], map[L1 := 1], map[], [v]);
            var plan := PlanTick(o, map[reader := 1], Settings(2, 0, 1.0, 0));
            0 in plan.promote && 0 in plan.demote
  {
    var v := View(0, identity, L1, Ready);
    var o := Observation(map[L1 := 1], map[L1 := 1], map[], [v]);
    var heat: Heat := map[reader := 1];
    var s := Settings(2, 0, 1.0, 0);
    assert |heat| == 1;
    assert Saturated(1) == 1.0 && Occupancy(o, L1) == Some(1.0);
    assert v in o.census && IsHot(v, heat, s) && IsCold(v, o, heat, s);
    var hot, cold := Hot([v], heat, s), Cold([v], o, heat, s);
    assert v in hot && v in cold;
    assert hot == [v] by {
      assert Hot([v][1..], heat, s) == [];
    }
    assert Sort(hot, heat) == [v] by {
      assert Sort([v][1..], heat) == [];
    }
    var plan := PlanTick(o, heat, s);
    assert plan.promote[0] == 0;
    var k :| 0 <= k < |cold| && cold[k] == v;
    assert plan.demote[k] == 0;
  }

  // ---------------------------------------------------------------- execution

  /** How the manager answers a requested move. */
  datatype Answer = Moved | Refused(error: CacheError)

  datatype MoveReport = MoveReport(demoted: nat, promoted: nat, failures: nat)

  /** How many requests were answered `Moved`, how many were refused for want of room, and how many otherwise. */
  datatype Answers = Answers(moved: nat, full: nat, failed: nat)

  /** The answers to the first `n` requests of a plan. Indices that name no census entry are skipped. */
  function Answered(plan: seq<nat>, n: nat, known: nat, answer: nat -> Answer): Answers
    requires n <= |plan|
  {
    if n == 0 then Answers(0, 0, 0)
    else
      var before := Answered(plan, n - 1, known, answer);
      if plan[n - 1] >= known then before
      else
        match answer(plan[n - 1])
        case Moved => before.(moved := before.moved + 1)
        case Refused(CapacityExhausted) => before.(full := before.full + 1)
        case Refused(_) => before.(failed := before.failed + 1)
  }

  /** Demotions stop once the budget is spent, by moves and by failures alike, or once one is refused for want of room. */
  predicate DemotionsStop(a: Answers, maxMoves: nat) {
    a.moved + a.failed >= maxMoves || a.full > 0
  }

  /** Promotions stop once the budget is spent, which only moves do. */
  predicate PromotionsStop(a: Answers, budget: nat) {
    a.moved >= budget
  }

  /** The first `d` demotions are requested: the plan goes on until it must stop, and no further. */
  method ApplyDemotions(plan: seq<nat>, known: nat, maxMoves: nat, answer: nat -> Answer) returns (r: Answers, ghost d: nat)
    ensures d <= |plan| && r == Answered(plan, d, known, answer)
    ensures forall k :: 0 <= k < d ==> !DemotionsStop(Answered(plan, k, known, answer), maxMoves)
    ensures d < |plan| ==> DemotionsStop(r, maxMoves)
    ensures r.moved + r.failed <= maxMoves && r.full <= 1
  {
    r := Answers(0, 0, 0);
    var budget := maxMoves;
    var i := 0;
    while i < |plan| && budget > 0
      invariant i <= |plan| && r == Answered(plan, i, known, answer) && r.full == 0
      invariant budget == maxMoves - (r.moved + r.failed)
      invariant forall k :: 0 <= k < i ==> !DemotionsStop(Answered(plan, k, known, answer), maxMoves)
    {
      var idx := plan[i];
      i := i + 1;
      if idx < known {
        match answer(idx) {
          case Moved =>
            r := r.(moved := r.moved + 1);
            budget := budget - 1;
          case Refused(CapacityExhausted) =>
            r := r.(full := r.full + 1);
            break;
          case Refused(_) =>
            r := r.(failed := r.failed + 1);
            budget := budget - 1;
        }
      }
    }
    d := i;
  }

  /** Likewise the first `p` promotions. */
  method ApplyPromotions(plan: seq<nat>, known: nat, budget: nat, answer: nat -> Answer) returns (r: Answers, ghost p: nat)
    ensures p <= |plan| && r == Answered(plan, p, known, answer)
    ensures forall k :: 0 <= k < p ==> !PromotionsStop(Answered(plan, k, known, answer), budget)
    ensures p < |plan| ==> PromotionsStop(r, budget)
    ensures r.moved <= budget
  {
    r := Answers(0, 0, 0);
    var left := budget;
    var j := 0;
    while j < |plan| && left > 0
      invariant j <= |plan| && r == Answered(plan, j, known, answer) && left == budget - r.moved
      invariant forall k :: 0 <= k < j ==> !PromotionsStop(Answered(plan, k, known, answer), budget)
    {
      var idx := plan[j];
      j := j + 1;
      if idx < known {
        match answer(idx) {
          case Moved =>
            r := r.(moved := r.moved + 1);
            left := left - 1;
          case Refused(CapacityExhausted) =>
            r := r.(full := r.full + 1);
          case Refused(_) =>
            r := r.(failed := r.failed + 1);
        }
      }
    }
    p := j;
  }

  /**
   Carry out a plan's moves. However the manager answers, and however long the plan, no more than
   `maxMoves` complete. The first `d` demotions and then, with what is left of the budget, the first `p`
   promotions are requested, each until it must stop and no further, and the report counts the answers.
   With budget left and no refusal, that is the whole plan.
   */
  method ApplyMoves(plan: Plan, known: nat, maxMoves: nat, demote: nat -> Answer, promote: nat -> Answer)
    returns (report: MoveReport, ghost d: nat, ghost p: nat)
    ensures report.demoted + report.promoted <= maxMoves && d <= |plan.demote| && p <= |plan.promote|
    ensures var down, up := Answered(plan.demote, d, known, demote), Answered(plan.promote, p, known, promote);
            && report == MoveReport(down.moved, up.moved, down.full + down.failed + up.full + up.failed)
            && (forall k :: 0 <= k < d ==> !DemotionsStop(Answered(plan.demote, k, known, demote), maxMoves))
            && (d < |plan.demote| ==> DemotionsStop(down, maxMoves))
            && var left := maxMoves - (down.moved + down.failed);
            && left >= 0
            && (forall k :: 0 <= k < p ==> !PromotionsStop(Answered(plan.promote, k, known, promote), left))
            && (p < |plan.promote| ==> PromotionsStop(up, left))
    ensures report.demoted + report.promoted < maxMoves && report.failures == 0 ==> d == |plan.demote| && p == |plan.promote|
  {
    var down, up;
    down, d := ApplyDemotions(plan.demote, known, maxMoves, demote);
    up, p := ApplyPromotions(plan.promote, known, maxMoves - (down.moved + down.failed), promote);
    report := MoveReport(down.moved, up.moved, down.full + down.failed + up.full + up.failed);
  }
}
