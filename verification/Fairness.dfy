/**
 Round-robin nomination. On a table whose live slots do not change, any run of as many nominations as
 there are live slots names each of them exactly once.
 */
module Fairness {
  import opened Entry
  import opened Probing

  /** The first live slot at or after step `k` of the scan that starts at `start`. */
  function LiveFrom(live: seq<bool>, start: nat, k: nat): (r: Option<nat>)
    requires start < |live| && k <= |live|
    ensures r.Some? ==> r.value < |live| && live[r.value]
    decreases |live| - k
  {
    if k == |live| then None
    else if live[Probe(start, k, |live|)] then Some(Probe(start, k, |live|))
    else LiveFrom(live, start, k + 1)
  }

  /** The slot nominated from a cursor. */
  function Victim(live: seq<bool>, cursor: nat): (r: Option<nat>)
    requires |live| > 0
    ensures r.Some? ==> r.value < |live| && live[r.value]
  {
    LiveFrom(live, cursor % |live|, 0)
  }

  /** How many live slots precede `i`. */
  function Rank(live: seq<bool>, i: nat): nat
    requires i <= |live|
  {
    if i == 0 then 0 else Rank(live, i - 1) + if live[i - 1] then 1 else 0
  }

  lemma {:induction false} RankIsMonotone(live: seq<bool>, i: nat, j: nat)
    requires i <= j <= |live|
    ensures Rank(live, i) <= Rank(live, j)
    ensures i < j && live[i] ==> Rank(live, i) < Rank(live, j)
  {
    if i < j {
      RankIsMonotone(live, i, j - 1);
    }
  }

  lemma RankIdentifies(live: seq<bool>, i: nat, j: nat)
    requires i < |live| && j < |live| && live[i] && live[j] && Rank(live, i) == Rank(live, j)
    ensures i == j
  {
    if i < j {
      RankIsMonotone(live, i, j);
    } else {
      RankIsMonotone(live, j, i);
    }
  }

  lemma {:induction false} RankIsFlatOverDead(live: seq<bool>, i: nat, j: nat)
    requires i <= j <= |live| && forall k :: i <= k < j ==> !live[k]
    ensures Rank(live, i) == Rank(live, j)
  {
    if i < j {
      RankIsFlatOverDead(live, i, j - 1);
    }
  }

  /** Everything the scan passes over is dead, and it finds something if anything is alive. */
  lemma {:induction false} ScanSkipsOnlyDead(live: seq<bool>, start: nat, k: nat, i: nat)
    requires start < |live| && k <= |live| && i < |live| && k <= Distance(start, i, |live|)
    ensures var v := LiveFrom(live, start, k);
            live[i] ==> v.Some? && Distance(start, v.value, |live|) <= Distance(start, i, |live|)
    decreases |live| - k
  {
    if Probe(start, k, |live|) != i && !live[Probe(start, k, |live|)] {
      ScanSkipsOnlyDead(live, start, k + 1, i);
    }
  }

  /** The nominated slot is the next in rank, or the first when the scan wraps. */
  lemma VictimIsNextInRank(live: seq<bool>, start: nat)
    requires start < |live| && Rank(live, |live|) > 0
    ensures var v := LiveFrom(live, start, 0);
            v.Some? && Rank(live, v.value) == if Rank(live, start) == Rank(live, |live|) then 0 else Rank(live, start)
  {
    var n := |live|;
    if forall i :: 0 <= i < n ==> !live[i] {
      RankIsFlatOverDead(live, 0, n);
    }
    var some :| 0 <= some < n && live[some];
    ScanSkipsOnlyDead(live, start, 0, some);
    var v := LiveFrom(live, start, 0).value;
    forall i: nat | i < n && live[i] ensures Distance(start, v, n) <= Distance(start, i, n) {
      ScanSkipsOnlyDead(live, start, 0, i);
    }
    if start <= v {
      RankIsFlatOverDead(live, start, v);
      RankIsMonotone(live, v, n);
    } else {
      assert forall k :: 0 <= k < v ==> !live[k] by {
        forall k | 0 <= k < v ensures !live[k] {
          assert Distance(start, k, n) < Distance(start, v, n);
        }
      }
      assert forall k :: start <= k < n ==> !live[k] by {
        forall k | start <= k < n ensures !live[k] {
          assert Distance(start, k, n) < Distance(start, v, n);
        }
      }
      RankIsFlatOverDead(live, start, n);
      RankIsFlatOverDead(live, 0, v);
    }
  }

  /** The slot named by the `j`-th nomination after the cursor stood at `cursor`. */
  function NthVictim(live: seq<bool>, cursor: nat, j: nat): (v: nat)
    requires |live| > 0 && Rank(live, |live|) > 0
    ensures v < |live| && live[v]
  {
    if j == 0 then
      VictimIsNextInRank(live, cursor % |live|);
      Victim(live, cursor).value
    else
      VictimIsNextInRank(live, (NthVictim(live, cursor, j - 1) + 1) % |live|);
      Victim(live, NthVictim(live, cursor, j - 1) + 1).value
  }

  lemma OneOn(v: nat, n: nat)
    requires v < n
    ensures (v + 1) % n == if v + 1 < n then v + 1 else 0
  {
  }

  /** After naming `v` the cursor stands just past it, and the next nomination is the next live slot round. */
  lemma NextVictimRank(live: seq<bool>, v: nat)
    requires v < |live| && live[v]
    ensures var m := Rank(live, |live|);
            var w := Victim(live, v + 1);
            m > 0 && Rank(live, v) < m && w.Some?
            && Rank(live, w.value) == if Rank(live, v) + 1 == m then 0 else Rank(live, v) + 1
  {
    var n := |live|;
    RankIsMonotone(live, v, n);
    RankIsMonotone(live, v + 1, n);
    assert Rank(live, v + 1) == Rank(live, v) + 1;
    OneOn(v, n);
    VictimIsNextInRank(live, if v + 1 < n then v + 1 else 0);
  }

  /** Ranks go round: start at `first` and add one per nomination, modulo `m`. */
  function Round(first: nat, j: nat, m: nat): nat
    requires first < m && j < m
  {
    if first + j < m then first + j else first + j - m
  }

  lemma {:induction false} NthRank(live: seq<bool>, cursor: nat, j: nat)
    requires |live| > 0 && j < Rank(live, |live|)
    ensures var m := Rank(live, |live|);
            var first := Rank(live, NthVictim(live, cursor, 0));
            first < m && Rank(live, NthVictim(live, cursor, j)) == Round(first, j, m)
  {
    if j == 0 {
      RankIsMonotone(live, NthVictim(live, cursor, 0), |live|);
    } else {
      NthRank(live, cursor, j - 1);
      NextVictimRank(live, NthVictim(live, cursor, j - 1));
    }
  }

  lemma NamedAtMostOnce(live: seq<bool>, cursor: nat, j: nat, k: nat)
    requires |live| > 0 && j < Rank(live, |live|) && k < Rank(live, |live|)
    requires NthVictim(live, cursor, j) == NthVictim(live, cursor, k)
    ensures j == k
  {
    NthRank(live, cursor, j);
    NthRank(live, cursor, k);
  }

  /** Any m consecutive nominations over m live slots name each of them exactly once. */
  lemma NominationIsFair(live: seq<bool>, cursor: nat, i: nat) returns (j: nat)
    requires i < |live| && live[i]
    ensures Rank(live, |live|) > 0
    ensures j < Rank(live, |live|) && NthVictim(live, cursor, j) == i
    ensures forall k: nat :: k < Rank(live, |live|) && NthVictim(live, cursor, k) == i ==> k == j
  {
    var m := Rank(live, |live|);
    RankIsMonotone(live, i, |live|);
    NthRank(live, cursor, 0);
    var first := Rank(live, NthVictim(live, cursor, 0));
    j := if Rank(live, i) >= first then Rank(live, i) - first else Rank(live, i) + m - first;
    NthRank(live, cursor, j);
    RankIdentifies(live, i, NthVictim(live, cursor, j));
    forall k: nat | k < m && NthVictim(live, cursor, k) == i ensures k == j {
      NamedAtMostOnce(live, cursor, j, k);
    }
  }
}
