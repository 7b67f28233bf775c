/** The linear probe sequence shared by the control table and the rung stub. */
module Probing {

  /** The slot `k` steps along the probe sequence that starts at `home`. */
  function Probe(home: nat, k: nat, n: nat): (i: nat)
    requires home < n && k < n
    ensures i < n
  {
    if home + k < n then home + k else home + k - n
  }

  /** How many steps along the probe sequence from `home` slot `i` lies. */
  function Distance(home: nat, i: nat, n: nat): (k: nat)
    requires home < n && i < n
    ensures k < n && Probe(home, k, n) == i
    ensures forall j: nat :: j < n && Probe(home, j, n) == i ==> j == k
  {
    if home <= i then i - home else i + n - home
  }

  lemma ProbeNext(home: nat, k: nat, n: nat)
    requires home < n && k + 1 < n
    ensures (Probe(home, k, n) + 1) % n == Probe(home, k + 1, n)
  {
    if Probe(home, k, n) + 1 < n {
    } else {
      assert Probe(home, k, n) + 1 == n;
    }
  }
}
