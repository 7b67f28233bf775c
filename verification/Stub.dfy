/**
 One rung's storage: an open-addressed index over a fixed pool with a free list, a digest per value and
 round-robin eviction. Keys are addressed by an arbitrary function, and time is a parameter.
 */
module Stub {
  import opened Entry
  import opened Probing
  import Fairness

  // ---------------------------------------------------------------- the pool

  ghost predicate Distinct(s: seq<nat>) {
    forall i, j :: 0 <= i < j < |s| ==> s[i] != s[j]
  }

  /** The free list names each empty cell once, and no other. */
  ghost predicate FreeListOk<V>(cells: seq<Option<V>>, free: seq<nat>) {
    Distinct(free) && forall i: nat :: i in free <==> i < |cells| && cells[i].None?
  }

  class MemoryPool<V> {
    var cells: seq<Option<V>>
    var free: seq<nat>

    ghost predicate Valid()
      reads this
    {
      FreeListOk(cells, free)
    }

    constructor (capacity: nat)
      ensures Valid() && |cells| == capacity && forall i :: 0 <= i < capacity ==> cells[i].None?
    {
      cells := seq(capacity, _ => None);
      free := seq(capacity, i => i);
      new;
      assert |free| == capacity && forall i: nat :: i < capacity ==> free[i] == i;
      forall i: nat ensures i in free <==> i < capacity {
        if i < capacity {
          assert free[i] == i;
        }
      }
    }

    /** Take the most recently freed cell. It fails exactly when no cell is empty. */
    method Allocate(value: V) returns (r: Result<nat>)
      requires Valid()
      modifies this
      ensures Valid()
      ensures r.Err? <==> forall i :: 0 <= i < |old(cells)| ==> old(cells)[i].Some?
      ensures r.Err? ==> r.error.ConfigurationError? && unchanged(this)
      ensures r.Ok? ==> r.value < |old(cells)| && old(cells)[r.value].None? && cells == old(cells)[r.value := Some(value)]
      ensures r.Ok? ==> old(free) == free + [r.value]
    {
      if free == [] {
        return Err(ConfigurationError);
      }
      var idx := free[|free| - 1];
      assert idx in free;
      free := free[..|free| - 1];
      cells := cells[idx := Some(value)];
      assert forall i: nat :: i in old(free) <==> i in free || i == idx;
      r := Ok(idx);
    }

    /** Give a cell back. Freeing an empty cell lists it twice, so the list stays right exactly when the cell was in use. */
    method Deallocate(idx: nat) returns (r: Result<()>)
      requires Valid()
      modifies this
      ensures r.Err? <==> idx >= |old(cells)|
      ensures r.Err? ==> r.error.ConfigurationError? && unchanged(this)
      ensures r.Ok? ==> cells == old(cells)[idx := None] && free == old(free) + [idx]
      ensures r.Ok? ==> (Valid() <==> old(cells)[idx].Some?)
    {
      if idx >= |cells| {
        return Err(ConfigurationError);
      }
      cells := cells[idx := None];
      free := free + [idx];
      assert forall i: nat :: i in free <==> i in old(free) || i == idx;
      assert free[|free| - 1] == idx;
      if idx in old(free) {
        var k :| 0 <= k < |old(free)| && old(free)[k] == idx;
        assert free[k] == idx;
      }
      r := Ok(());
    }
  }

  /** A pool without cells is a configuration error. */
  method NewPool<V>(capacity: nat) returns (r: Result<MemoryPool<V>>)
    ensures if capacity == 0 then r == Err(ConfigurationError)
            else r.Ok? && fresh(r.value) && r.value.Valid() && |r.value.cells| == capacity
                 && forall i :: 0 <= i < capacity ==> r.value.cells[i].None?
  {
    if capacity == 0 {
      return Err(ConfigurationError);
    }
    var pool := new MemoryPool<V>(capacity);
    r := Ok(pool);
  }

  // ---------------------------------------------------------------- the index

  datatype Expiry = Never | After(armed: nat, ttl: nat) {
    predicate IsPast(now: nat) {
      After? && now - armed >= ttl
    }
  }

  datatype Slot = Slot(address: KeyAddress, digest: nat, cell: nat, expiry: Expiry)

  type Slots = seq<Option<Slot>>

  predicate Describes(slot: Option<Slot>, a: KeyAddress) {
    slot.Some? && slot.value.address == a
  }

  /** Slot `i` is the first, from the start of the table, to hold `a`. */
  predicate IsFirstHolder(slots: Slots, a: KeyAddress, i: nat) {
    i < |slots| && Describes(slots[i], a) && forall j :: 0 <= j < i ==> !Describes(slots[j], a)
  }

  /** A write for `a` may go here: the slot is empty, or its own, or has expired. */
  predicate Usable(slot: Option<Slot>, a: KeyAddress, now: nat) {
    slot.None? || slot.value.address == a || slot.value.expiry.IsPast(now)
  }

  /** Another key's value is in the slot, and still lives. */
  predicate IsTaken(slot: Option<Slot>, a: KeyAddress, now: nat) {
    slot.Some? && slot.value.address != a && (slot.value.expiry.Never? || now < slot.value.expiry.armed + slot.value.expiry.ttl)
  }

  function Home(slots: Slots, a: KeyAddress): (h: nat)
    requires |slots| > 0
    ensures h < |slots|
  {
    a.placement % |slots|
  }

  /** The slot `k` steps along `a`'s probe sequence. */
  function OnPath(slots: Slots, a: KeyAddress, k: nat): (i: nat)
    requires k < |slots|
    ensures i < |slots|
  {
    Probe(Home(slots, a), k, |slots|)
  }

  /** The first slot at or after step `k` that holds `a`. */
  function MatchFrom(slots: Slots, a: KeyAddress, k: nat): (r: Option<nat>)
    requires k <= |slots|
    ensures r.Some? ==> r.value < |slots| && Describes(slots[r.value], a)
    decreases |slots| - k
  {
    if k == |slots| then None
    else if Describes(slots[OnPath(slots, a, k)], a) then Some(OnPath(slots, a, k))
    else MatchFrom(slots, a, k + 1)
  }

  function FirstMatch(slots: Slots, a: KeyAddress): Option<nat> {
    MatchFrom(slots, a, 0)
  }

  function UsableFrom(slots: Slots, a: KeyAddress, now: nat, k: nat): (r: Option<nat>)
    requires k <= |slots|
    ensures r.Some? ==> r.value < |slots| && Usable(slots[r.value], a, now)
    decreases |slots| - k
  {
    if k == |slots| then None
    else if Usable(slots[OnPath(slots, a, k)], a, now) then Some(OnPath(slots, a, k))
    else UsableFrom(slots, a, now, k + 1)
  }

  function FirstUsable(slots: Slots, a: KeyAddress, now: nat): Option<nat> {
    UsableFrom(slots, a, now, 0)
  }

  /** What a read of `a` finds at time `now`: its first slot in probe order, unless that one has expired. */
  function LiveMatch(slots: Slots, a: KeyAddress, now: nat): Option<nat> {
    var m := FirstMatch(slots, a);
    if m.Some? && !slots[m.value].value.expiry.IsPast(now) then m else None
  }

  /** Whole-table search: a hole in the middle of a probe sequence proves nothing here. */
  method FindSlot(slots: Slots, a: KeyAddress, now: nat) returns (r: Option<nat>)
    ensures r == LiveMatch(slots, a, now)
  {
    var n := |slots|;
    if n == 0 {
      return None;
    }
    var idx := a.placement % n;
    var attempts := 0;
    while attempts < n
      invariant attempts <= n && (attempts < n ==> idx == OnPath(slots, a, attempts))
      invariant FirstMatch(slots, a) == MatchFrom(slots, a, attempts)
    {
      if Describes(slots[idx], a) {
        return if slots[idx].value.expiry.IsPast(now) then None else Some(idx);
      }
      if attempts + 1 < n {
        ProbeNext(Home(slots, a), attempts, n);
      }
      idx := (idx + 1) % n;
      attempts := attempts + 1;
    }
    r := None;
  }

  /** Where a write goes: the first empty, own or expired slot in probe order. */
  method FindEmpty(slots: Slots, a: KeyAddress, now: nat) returns (r: Option<nat>)
    ensures r == FirstUsable(slots, a, now)
  {
    var n := |slots|;
    if n == 0 {
      return None;
    }
    var idx := a.placement % n;
    var attempts := 0;
    while attempts < n
      invariant attempts <= n && (attempts < n ==> idx == OnPath(slots, a, attempts))
      invariant FirstUsable(slots, a, now) == UsableFrom(slots, a, now, attempts)
    {
      if Usable(slots[idx], a, now) {
        return Some(idx);
      }
      if attempts + 1 < n {
        ProbeNext(Home(slots, a), attempts, n);
      }
      idx := (idx + 1) % n;
      attempts := attempts + 1;
    }
    r := None;
  }

  /** The search misses nothing. */
  lemma {:induction false} MatchFromIsComplete(slots: Slots, a: KeyAddress, k: nat, i: nat)
    requires k <= |slots| && i < |slots| && Describes(slots[i], a) && MatchFrom(slots, a, k).None?
    ensures Distance(Home(slots, a), i, |slots|) < k
    decreases |slots| - k
  {
    if k < |slots| {
      MatchFromIsComplete(slots, a, k + 1, i);
    }
  }

  /** A write is refused exactly when every slot is live and belongs to another key. */
  lemma {:induction false} NoUsableMeansFull(slots: Slots, a: KeyAddress, now: nat, k: nat, i: nat)
    requires k <= |slots| && UsableFrom(slots, a, now, k).None? && i < |slots|
    requires k <= Distance(Home(slots, a), i, |slots|)
    ensures !Usable(slots[i], a, now)
    decreases |slots| - k
  {
    if OnPath(slots, a, k) != i {
      NoUsableMeansFull(slots, a, now, k + 1, i);
    }
  }

  /** A written slot is the first match: whatever precedes it on the probe sequence belongs to others, and holes and duplicates lie beyond it. */
  lemma {:induction false} WrittenIsFirst(slots: Slots, a: KeyAddress, now: nat, s: Slot, k: nat)
    requires k <= |slots| && UsableFrom(slots, a, now, k).Some? && s.address == a
    ensures var i := UsableFrom(slots, a, now, k).value;
            MatchFrom(slots[i := Some(s)], a, k) == Some(i)
    decreases |slots| - k
  {
    var i := UsableFrom(slots, a, now, k).value;
    if OnPath(slots, a, k) != i {
      assert !Usable(slots[OnPath(slots, a, k)], a, now);
      WrittenIsFirst(slots, a, now, s, k + 1);
    }
  }

  /** What a search for `b` finds once slot `i` no longer describes it: the next match when `i` was the first, else the same. */
  function MatchWithout(slots: Slots, b: KeyAddress, i: nat): (r: Option<nat>)
    requires i < |slots|
    ensures r.Some? ==> r.value < |slots| && r.value != i && Describes(slots[r.value], b)
  {
    var m := FirstMatch(slots, b);
    if m == Some(i) then NextAfter(slots, b, i) else m
  }

  /** The match after slot `i` in probe order. */
  function NextAfter(slots: Slots, b: KeyAddress, i: nat): (r: Option<nat>)
    requires i < |slots|
    ensures r.Some? ==> r.value < |slots| && r.value != i && Describes(slots[r.value], b)
  {
    var k := Distance(Home(slots, b), i, |slots|) + 1;
    MatchFromIsBeyond(slots, b, k);
    MatchFrom(slots, b, k)
  }

  lemma {:induction false} MatchFromIsBeyond(slots: Slots, a: KeyAddress, k: nat)
    requires k <= |slots|
    ensures MatchFrom(slots, a, k).Some? ==> k <= Distance(Home(slots, a), MatchFrom(slots, a, k).value, |slots|)
    decreases |slots| - k
  {
    if k < |slots| {
      MatchFromIsBeyond(slots, a, k + 1);
    }
  }

  /** Taking slot `i` from `b`, emptied or given to another key, uncovers the next match exactly when `i` was the first. */
  lemma {:induction false} TakingUncoversNext(slots: Slots, b: KeyAddress, i: nat, s: Option<Slot>, k: nat)
    requires i < |slots| && k <= |slots| && !Describes(s, b)
    ensures MatchFrom(slots[i := s], b, k)
         == if MatchFrom(slots, b, k) == Some(i) then NextAfter(slots, b, i) else MatchFrom(slots, b, k)
    decreases |slots| - k
  {
    if k < |slots| {
      if OnPath(slots, b, k) == i {
        TakenBehind(slots, b, i, s, k + 1);
      } else {
        TakingUncoversNext(slots, b, i, s, k + 1);
      }
    }
  }

  lemma {:induction false} TakenBehind(slots: Slots, b: KeyAddress, i: nat, s: Option<Slot>, k: nat)
    requires k <= |slots| && i < |slots| && Distance(Home(slots, b), i, |slots|) < k
    ensures MatchFrom(slots[i := s], b, k) == MatchFrom(slots, b, k)
    decreases |slots| - k
  {
    if k < |slots| {
      assert OnPath(slots, b, k) != i;
      TakenBehind(slots, b, i, s, k + 1);
    }
  }

  // ---------------------------------------------------------------- index and pool together

  /** Occupied slots own distinct cells, and between them all the cells in use. */
  ghost predicate Linked<V>(slots: Slots, cells: seq<Option<V>>) {
    && |cells| == |slots|
    && (forall i :: 0 <= i < |slots| && slots[i].Some? ==> slots[i].value.cell < |cells| && cells[slots[i].value.cell].Some?)
    && (forall i, j :: 0 <= i < |slots| && 0 <= j < |slots| && i != j && slots[i].Some? && slots[j].Some? ==>
          slots[i].value.cell != slots[j].value.cell)
    && (forall c: nat :: c < |cells| && cells[c].Some? ==> Owned(slots, c))
  }

  ghost predicate Owned(slots: Slots, c: nat) {
    exists i: nat :: i < |slots| && slots[i].Some? && slots[i].value.cell == c
  }

  ghost function CellsUpTo(slots: Slots, k: nat): set<nat>
    requires k <= |slots|
  {
    if k == 0 then {}
    else CellsUpTo(slots, k - 1) + if slots[k - 1].Some? then {slots[k - 1].value.cell} else {}
  }

  lemma {:induction false} FewerCellsThanSlots(slots: Slots, k: nat, hole: nat)
    requires k <= |slots| && hole < |slots| && slots[hole].None?
    ensures |CellsUpTo(slots, k)| <= if hole < k then k - 1 else k
  {
    if k > 0 {
      FewerCellsThanSlots(slots, k - 1, hole);
      var before := CellsUpTo(slots, k - 1);
      if slots[k - 1].Some? {
        var c := slots[k - 1].value.cell;
        assert c in before ==> before + {c} == before;
      }
    }
  }

  lemma {:induction false} OwnedIsCounted(slots: Slots, k: nat, i: nat)
    requires i < k <= |slots| && slots[i].Some?
    ensures slots[i].value.cell in CellsUpTo(slots, k)
  {
    if i != k - 1 {
      OwnedIsCounted(slots, k - 1, i);
    }
  }

  lemma {:induction false} RangeSize(n: nat, s: set<nat>)
    requires forall c: nat :: c < n ==> c in s
    ensures n <= |s|
  {
    if n > 0 {
      RangeSize(n - 1, s - {n - 1});
    }
  }

  /** While the index has an empty slot the pool has an empty cell, so allocation inside a write cannot fail. */
  lemma EmptySlotMeansEmptyCell<V>(slots: Slots, cells: seq<Option<V>>, hole: nat)
    requires Linked(slots, cells) && hole < |slots| && slots[hole].None?
    ensures exists c :: 0 <= c < |cells| && cells[c].None?
  {
    if forall c :: 0 <= c < |cells| ==> cells[c].Some? {
      var used := CellsUpTo(slots, |slots|);
      forall c: nat | c < |cells| ensures c in used {
        assert Owned(slots, c);
        var i: nat :| i < |slots| && slots[i].Some? && slots[i].value.cell == c;
        OwnedIsCounted(slots, |slots|, i);
      }
      RangeSize(|cells|, used);
      FewerCellsThanSlots(slots, |slots|, hole);
      assert false;
    }
  }

  /** The value of an occupied slot. */
  function ValueAt<V>(slots: Slots, cells: seq<Option<V>>, i: nat): V
    requires i < |slots| && slots[i].Some? && slots[i].value.cell < |cells| && cells[slots[i].value.cell].Some?
  {
    cells[slots[i].value.cell].value
  }

  /** What a read of `a` finds at `now`, digests aside. */
  ghost function Visible<V>(slots: Slots, cells: seq<Option<V>>, a: KeyAddress, now: nat): Option<V>
    requires Linked(slots, cells)
  {
    var m := LiveMatch(slots, a, now);
    if m.Some? then Some(ValueAt(slots, cells, m.value)) else None
  }

  /** What a read of `b` finds at `t` once slot `i` is no longer its own. */
  ghost function VisibleWithout<V>(slots: Slots, cells: seq<Option<V>>, b: KeyAddress, i: nat, t: nat): Option<V>
    requires Linked(slots, cells) && i < |slots|
  {
    var m := MatchWithout(slots, b, i);
    if m.Some? && !slots[m.value].value.expiry.IsPast(t) then Some(ValueAt(slots, cells, m.value)) else None
  }

  /** Writing one slot, over an old cell of its own or a newly taken one. */
  lemma WriteKeepsLinks<V>(slots: Slots, cells: seq<Option<V>>, i: nat, s: Slot, value: V)
    requires Linked(slots, cells) && i < |slots| && s.cell < |cells|
    requires if slots[i].Some? then s.cell == slots[i].value.cell else cells[s.cell].None?
    ensures Linked(slots[i := Some(s)], cells[s.cell := Some(value)])
    ensures forall j :: 0 <= j < |slots| && j != i && slots[j].Some? ==>
              ValueAt(slots[i := Some(s)], cells[s.cell := Some(value)], j) == ValueAt(slots, cells, j)
  {
    var slots', cells' := slots[i := Some(s)], cells[s.cell := Some(value)];
    forall c: nat | c < |cells'| && cells'[c].Some? ensures Owned(slots', c) {
      if c == s.cell {
        assert slots'[i].value.cell == c;
      } else {
        assert Owned(slots, c);
        var j: nat :| j < |slots| && slots[j].Some? && slots[j].value.cell == c;
        assert slots'[j].value.cell == c;
      }
    }
  }

  lemma ClearKeepsLinks<V>(slots: Slots, cells: seq<Option<V>>, i: nat)
    requires Linked(slots, cells) && i < |slots| && slots[i].Some?
    ensures Linked(slots[i := None], cells[slots[i].value.cell := None])
    ensures forall j :: 0 <= j < |slots| && j != i && slots[j].Some? ==>
              ValueAt(slots[i := None], cells[slots[i].value.cell := None], j) == ValueAt(slots, cells, j)
  {
    var slots', cells' := slots[i := None], cells[slots[i].value.cell := None];
    forall c: nat | c < |cells'| && cells'[c].Some? ensures Owned(slots', c) {
      assert Owned(slots, c);
      var j: nat :| j < |slots| && slots[j].Some? && slots[j].value.cell == c;
      assert slots'[j].value.cell == c;
    }
  }

  /** The slot a removal at `now` would uncover, next in probe order after the live one it empties. */
  function Covered(slots: Slots, a: KeyAddress, now: nat): (r: Option<nat>)
    ensures r.Some? ==> r.value < |slots| && slots[r.value].Some?
  {
    var m := LiveMatch(slots, a, now);
    if m.None? then None else NextAfter(slots, a, m.value)
  }

  /** A key with a single slot has nothing underneath it. */
  lemma {:induction false} SingleSlotCoversNothing(slots: Slots, a: KeyAddress, now: nat)
    requires forall i, j :: 0 <= i < |slots| && 0 <= j < |slots| && Describes(slots[i], a) && Describes(slots[j], a) ==> i == j
    ensures Covered(slots, a, now).None?
  {
    var m := LiveMatch(slots, a, now);
    if m.Some? {
      MatchFromIsBeyond(slots, a, Distance(Home(slots, a), m.value, |slots|) + 1);
    }
  }

  /** Emptying a slot: every key then reads what it would without that slot. */
  lemma ClearIsSeenAs<V>(slots: Slots, cells: seq<Option<V>>, i: nat, b: KeyAddress, t: nat)
    requires Linked(slots, cells) && i < |slots| && slots[i].Some?
    ensures Linked(slots[i := None], cells[slots[i].value.cell := None])
    ensures Visible(slots[i := None], cells[slots[i].value.cell := None], b, t) == VisibleWithout(slots, cells, b, i, t)
  {
    ClearKeepsLinks(slots, cells, i);
    TakingUncoversNext(slots, b, i, None, 0);
  }

  /** Which slots are live at `now`. */
  function Liveness(slots: Slots, now: nat): (live: seq<bool>)
    ensures |live| == |slots|
    ensures forall i :: 0 <= i < |slots| ==> live[i] == (slots[i].Some? && !slots[i].value.expiry.IsPast(now))
  {
    seq(|slots|, i requires 0 <= i < |slots| => slots[i].Some? && !slots[i].value.expiry.IsPast(now))
  }

  /** Scan once round the table for a live slot. */
  method NextLive(slots: Slots, start: nat, now: nat) returns (r: Option<nat>)
    requires start < |slots|
    ensures r == Fairness.LiveFrom(Liveness(slots, now), start, 0)
  {
    ghost var live := Liveness(slots, now);
    for offset := 0 to |slots|
      invariant Fairness.LiveFrom(live, start, 0) == Fairness.LiveFrom(live, start, offset)
    {
      var idx := Probe(start, offset, |slots|);
      if slots[idx].Some? && !slots[idx].value.expiry.IsPast(now) {
        return Some(idx);
      }
    }
    r := None;
  }

  method FirstOccupied(slots: Slots) returns (r: Option<nat>)
    ensures r.Some? ==> r.value < |slots| && slots[r.value].Some? && IsFirstHolder(slots, slots[r.value].value.address, r.value)
    ensures forall j :: 0 <= j < (if r.Some? then r.value else |slots|) ==> slots[j].None?
  {
    for i := 0 to |slots|
      invariant forall j :: 0 <= j < i ==> slots[j].None?
    {
      if slots[i].Some? {
        return Some(i);
      }
    }
    r := None;
  }

  /** A write leaves an older value of its key underneath exactly when the key already has a slot other than the one taken. */
  lemma WriteCoversIff(slots: Slots, a: KeyAddress, now: nat, s: Slot, t: nat)
    requires FirstUsable(slots, a, now).Some? && s.address == a && !s.expiry.IsPast(t)
    ensures var h := FirstUsable(slots, a, now).value;
            Covered(slots[h := Some(s)], a, t).Some? <==> exists i :: 0 <= i < |slots| && i != h && Describes(slots[i], a)
  {
    var h := FirstUsable(slots, a, now).value;
    var after := slots[h := Some(s)];
    var beyond := Distance(Home(slots, a), h, |slots|) + 1;
    WrittenIsFirst(slots, a, now, s, 0);
    var next := MatchFrom(after, a, beyond);
    if next.Some? {
      MatchFromIsBeyond(after, a, beyond);
      assert Describes(slots[next.value], a);
    } else {
      forall i: nat | i < |slots| && i != h ensures !Describes(slots[i], a) {
        if Describes(slots[i], a) {
          MatchFromIsComplete(after, a, beyond, i);
          UsableIsFirst(slots, a, now, 0, i);
        }
      }
    }
  }

  lemma {:induction false} UsableIsFirst(slots: Slots, a: KeyAddress, now: nat, k: nat, i: nat)
    requires k <= |slots| && i < |slots| && k <= Distance(Home(slots, a), i, |slots|) && Usable(slots[i], a, now)
    ensures var h := UsableFrom(slots, a, now, k);
            h.Some? && Distance(Home(slots, a), h.value, |slots|) <= Distance(Home(slots, a), i, |slots|)
    decreases |slots| - k
  {
    if OnPath(slots, a, k) != i && !Usable(slots[OnPath(slots, a, k)], a, now) {
      UsableIsFirst(slots, a, now, k + 1, i);
    }
  }

  /** The table after a write of `s`, which goes where `FirstUsable` says. */
  function Written(slots: Slots, s: Slot, now: nat): Slots
    requires FirstUsable(slots, s.address, now).Some?
  {
    slots[FirstUsable(slots, s.address, now).value := Some(s)]
  }

  /** Two slots for one key arise from writes and a removal: write `x`, write the key behind it, remove `x`, write the key again. */
  lemma DoubledKeyIsReachable(x: Slot, older: Slot, newer: Slot)
    requires x.address.placement == 0 && older.address.placement == 0 && newer.address == older.address != x.address
    requires x.expiry.Never? && older.expiry.Never?
    ensures var empty: Slots := [None, None];
            && FirstUsable(empty, x.address, 0).Some?
            && var one := Written(empty, x, 0);
            && FirstUsable(one, older.address, 0).Some?
            && var two := Written(one, older, 0);
            && LiveMatch(two, x.address, 0) == Some(0)
            && var holed := two[0 := None];
            && FirstUsable(holed, newer.address, 0).Some?
            && Written(holed, newer, 0) == [Some(newer), Some(older)]
  {
    var empty: Slots := [None, None];
    assert FirstUsable(empty, x.address, 0) == Some(0);
    var one: Slots := [Some(x), None];
    assert Written(empty, x, 0) == one;
    assert UsableFrom(one, older.address, 0, 1) == Some(1);
    assert Written(one, older, 0) == [Some(x), Some(older)];
    var holed: Slots := [None, Some(older)];
    assert [Some(x), Some(older)][0 := None] == holed;
    assert FirstUsable(holed, newer.address, 0) == Some(0);
  }

  /** A hole before a key's slot takes its next write, so two slots hold the key and a removal uncovers the older value. */
  lemma RemovedKeyCanResurface(k: KeyAddress, older: Slot, newer: Slot)
    requires k.placement == 0 && older.address == k && newer.address == k && older.expiry.Never? && newer.expiry.Never?
    ensures var holed: Slots := [None, Some(older)];
            FirstUsable(holed, k, 0) == Some(0)
            && LiveMatch([Some(newer), Some(older)], k, 0) == Some(0)
            && Covered([Some(newer), Some(older)], k, 0) == Some(1)
            && LiveMatch(holed, k, 0) == Some(1)
  {
    var holed: Slots := [None, Some(older)];
    var twice: Slots := [Some(newer), Some(older)];
    assert MatchFrom(holed, k, 1) == Some(1) && MatchFrom(twice, k, 1) == Some(1);
  }

  /** Read your write: the written value is what a search finds, until it expires. */
  lemma WriteIsSeen<V>(slots: Slots, cells: seq<Option<V>>, a: KeyAddress, now: nat, s: Slot, value: V, t: nat)
    requires Linked(slots, cells) && FirstUsable(slots, a, now).Some? && s.address == a && s.cell < |cells|
    requires var i := FirstUsable(slots, a, now).value;
             if slots[i].Some? then s.cell == slots[i].value.cell else cells[s.cell].None?
    ensures var i := FirstUsable(slots, a, now).value;
            Linked(slots[i := Some(s)], cells[s.cell := Some(value)])
            && Visible(slots[i := Some(s)], cells[s.cell := Some(value)], a, t) == if s.expiry.IsPast(t) then None else Some(value)
  {
    var i := FirstUsable(slots, a, now).value;
    WriteKeepsLinks(slots, cells, i, s, value);
    WrittenIsFirst(slots, a, now, s, 0);
  }

  /** Writing a slot: every other key then reads what it would without that slot. */
  lemma WriteIsSeenByOthersAs<V>(slots: Slots, cells: seq<Option<V>>, i: nat, s: Slot, value: V, b: KeyAddress, t: nat)
    requires Linked(slots, cells) && i < |slots| && s.address != b && s.cell < |cells|
    requires if slots[i].Some? then s.cell == slots[i].value.cell else cells[s.cell].None?
    ensures Linked(slots[i := Some(s)], cells[s.cell := Some(value)])
    ensures Visible(slots[i := Some(s)], cells[s.cell := Some(value)], b, t) == VisibleWithout(slots, cells, b, i, t)
  {
    WriteKeepsLinks(slots, cells, i, s, value);
    TakingUncoversNext(slots, b, i, Some(s), 0);
  }

  /** A write for `a` at `now` takes the slot a search for `b` stops at, and the next one of `b` is live at `t`. */
  predicate Resurfaces(slots: Slots, a: KeyAddress, b: KeyAddress, now: nat, t: nat) {
    && FirstUsable(slots, a, now).Some? && FirstUsable(slots, a, now) == FirstMatch(slots, b)
    && var under := NextAfter(slots, b, FirstMatch(slots, b).value);
    under.Some? && !slots[under.value].value.expiry.IsPast(t)
  }

  /** A write changes what another key reads if and only if it brings back an older value of that key, which until then read as missing. */
  lemma OthersChangeIffResurfacing<V>(slots: Slots, cells: seq<Option<V>>, a: KeyAddress, b: KeyAddress, now: nat, t: nat)
    requires Linked(slots, cells) && FirstUsable(slots, a, now).Some? && a != b && now <= t
    ensures var i := FirstUsable(slots, a, now).value;
            VisibleWithout(slots, cells, b, i, t) != Visible(slots, cells, b, t) <==> Resurfaces(slots, a, b, now, t)
    ensures Resurfaces(slots, a, b, now, t) ==> Visible(slots, cells, b, t).None?
  {
  }

  /** The expired slot of one key, written by another, lets the first key's older value back. */
  lemma DisplacedKeyCanResurface(b: KeyAddress, y: KeyAddress, older: Slot, newer: Slot)
    requires b != y && b.placement == 0 && y.placement == 0
    requires older.address == b && newer.address == b && older.expiry.Never? && newer.expiry == After(0, 5)
    ensures var slots := [Some(newer), Some(older)];
            LiveMatch(slots, b, 10).None? && FirstUsable(slots, y, 10) == Some(0) && Resurfaces(slots, y, b, 10, 10)
  {
    var slots := [Some(newer), Some(older)];
    assert MatchFrom(slots, b, 1) == Some(1);
  }

  // ---------------------------------------------------------------- the rung

  class FixedTierStub<K(!new), V> {
    const addressOf: K -> KeyAddress
    const digestOf: V -> nat
    const pool: MemoryPool<V>
    var slots: Slots
    var cursor: nat
    var corruptions: nat
    /** Every write this rung has accepted. */
    ghost var log: set<(K, V)>

    /** Pool and index agree, and every stored value was written under its slot's address. */
    ghost predicate Valid()
      reads this, pool
    {
      && |slots| > 0
      && pool.Valid()
      && Linked(slots, pool.cells)
      && (forall i :: 0 <= i < |slots| && slots[i].Some? ==>
            Logged(slots[i].value.address, ValueAt(slots, pool.cells, i)))
    }

    ghost predicate Logged(a: KeyAddress, v: V)
      reads this
    {
      exists k :: (k, v) in log && addressOf(k) == a
    }

    /** Every value matches its digest. Only memory changing behind the stub's back breaks this. */
    ghost predicate Undamaged()
      requires Valid()
      reads this, pool
    {
      forall i :: 0 <= i < |slots| && slots[i].Some? ==> digestOf(ValueAt(slots, pool.cells, i)) == slots[i].value.digest
    }

    /** What a read of `key` finds at `now`. */
    ghost function Sees(key: K, now: nat): Option<V>
      requires Valid()
      reads this, pool
    {
      Visible(slots, pool.cells, addressOf(key), now)
    }

    constructor (pool: MemoryPool<V>, addressOf: K -> KeyAddress, digestOf: V -> nat)
      requires pool.Valid() && |pool.cells| > 0 && forall i :: 0 <= i < |pool.cells| ==> pool.cells[i].None?
      ensures Valid() && Undamaged() && this.pool == pool && log == {} && |slots| == |pool.cells|
      ensures forall k, now: nat :: Sees(k, now).None?
      ensures this.addressOf == addressOf && this.digestOf == digestOf
    {
      this.pool := pool;
      slots := seq(|pool.cells|, _ => None);
      this.addressOf, this.digestOf := addressOf, digestOf;
      cursor, corruptions := 0, 0;
      log := {};
    }

    /** The slot a read of `key` finds holds a value that no longer matches its digest. */
    ghost predicate IsDamaged(key: K, now: nat)
      requires Valid()
      reads this, pool
    {
      var m := LiveMatch(slots, addressOf(key), now);
      m.Some? && digestOf(ValueAt(slots, pool.cells, m.value)) != slots[m.value].value.digest
    }

    /** A read serves what the last write left visible, and only what was written for this key; exactly a damaged value is refused. */
    method Get(key: K, now: nat) returns (r: Result<Option<V>>)
      requires Valid()
      modifies `corruptions
      ensures Valid()
      ensures r.Ok? ==> r.value == Sees(key, now)
      ensures r.Ok? && r.value.Some? ==> Logged(addressOf(key), r.value.value)
      ensures r.Ok? && r.value.Some? && (forall x, y :: addressOf(x) == addressOf(y) ==> x == y) ==> (key, r.value.value) in log
      ensures r.Err? <==> IsDamaged(key, now)
      ensures r.Err? ==> r.error.Corrupted? && !Undamaged()
      ensures corruptions == old(corruptions) + if r.Err? then 1 else 0
    {
      var idx := FindSlot(slots, addressOf(key), now);
      if idx.None? {
        return Ok(None);
      }
      var slot := slots[idx.value].value;
      var value := pool.cells[slot.cell];
      if digestOf(value.value) != slot.digest {
        corruptions := corruptions + 1;
        return Err(Corrupted);
      }
      r := Ok(value);
    }

    /** What a read of `key` would find at `t` if slot `i` were not its own. */
    ghost function SeesWithout(key: K, i: nat, t: nat): Option<V>
      requires Valid() && i < |slots|
      reads this, pool
    {
      VisibleWithout(slots, pool.cells, addressOf(key), i, t)
    }

    /** The slot a write of `key` at `now` goes to, where there is one. */
    function Target(key: K, now: nat): (i: nat)
      requires |slots| > 0
      reads this
      ensures i < |slots|
    {
      var i := FirstUsable(slots, addressOf(key), now);
      if i.Some? then i.value else 0
    }

    /**
     A write. It is refused exactly when every slot is live and belongs to another key, and then nothing
     changes. Otherwise it is what a read of the key finds from then on, until its own TTL passes, holes
     and duplicates notwithstanding. Every other key reads what it would without the slot taken, which from
     then on is what it read before, unless the write brings back an older value that an expired one hid.
     */
    method Set(key: K, value: V, ttl: Option<nat>, now: nat) returns (r: Result<()>)
      requires Valid()
      modifies this, pool
      ensures Valid() && |slots| == |old(slots)| && (old(Undamaged()) ==> Undamaged())
      ensures cursor == old(cursor) && corruptions == old(corruptions)
      ensures r.Err? <==> forall i :: 0 <= i < |old(slots)| ==> IsTaken(old(slots)[i], addressOf(key), now)
      ensures r.Err? ==> r.error.CapacityExhausted? && unchanged(this) && unchanged(pool)
      ensures r.Ok? ==> log == old(log) + {(key, value)}
      ensures forall t: nat :: !(ttl.Some? && t - now >= ttl.value) ==>
                Sees(key, t) == AfterWrite(old(Sees(key, t)), value, if r.Err? then Some(r.error) else None, false)
      ensures r.Ok? ==> forall t: nat :: Sees(key, t) == if ttl.Some? && t - now >= ttl.value then None else Some(value)
      ensures r.Ok? ==> forall b, t: nat :: addressOf(b) != addressOf(key) ==> Sees(b, t) == old(SeesWithout(b, Target(key, now), t))
      ensures r.Ok? ==> forall b, t: nat :: addressOf(b) != addressOf(key) && now <= t ==>
                (Sees(b, t) != old(Sees(b, t)) <==> Resurfaces(old(slots), addressOf(key), addressOf(b), now, t))
    {
      var a := addressOf(key);
      var idx := FindEmpty(slots, a, now);
      if idx.None? {
        forall i | 0 <= i < |slots| ensures !Usable(slots[i], a, now) {
          NoUsableMeansFull(slots, a, now, 0, i);
        }
        return Err(CapacityExhausted);
      }
      var i := idx.value;
      var expiry := if ttl.Some? then After(now, ttl.value) else Never;
      ghost var before, cells := slots, pool.cells;
      WriteSlot(i, key, value, expiry);
      ghost var slot := slots[i].value;
      forall t: nat ensures Sees(key, t) == if expiry.IsPast(t) then None else Some(value) {
        WriteIsSeen(before, cells, a, now, slot, value, t);
      }
      forall b, t: nat | addressOf(b) != a
        ensures Sees(b, t) == VisibleWithout(before, cells, addressOf(b), i, t)
        ensures now <= t ==> (Sees(b, t) != Visible(before, cells, addressOf(b), t) <==> Resurfaces(before, a, addressOf(b), now, t))
      {
        WriteIsSeenByOthersAs(before, cells, i, slot, value, addressOf(b), t);
        if now <= t {
          OthersChangeIffResurfacing(before, cells, a, addressOf(b), now, t);
        }
      }
      r := Ok(());
    }

    /** Store a value and describe it in slot `i`. */
    method WriteSlot(i: nat, key: K, value: V, expiry: Expiry)
      requires Valid() && i < |slots|
      modifies this, pool
      ensures i < |slots| && Valid() && (old(Undamaged()) ==> Undamaged())
      ensures cursor == old(cursor) && corruptions == old(corruptions)
      ensures log == old(log) + {(key, value)}
      ensures slots[i].Some? && slots == old(slots)[i := slots[i]]
      ensures var s := slots[i].value;
              s.address == addressOf(key) && s.expiry == expiry && s.cell < |old(pool.cells)|
              && pool.cells == old(pool.cells)[s.cell := Some(value)]
              && if old(slots)[i].Some? then s.cell == old(slots)[i].value.cell else old(pool.cells)[s.cell].None?
    {
      ghost var cells := pool.cells;
      var cell := PlaceValue(i, value);
      var slot := Slot(addressOf(key), digestOf(value), cell, expiry);
      WriteKeepsLinks(slots, cells, i, slot, value);
      slots := slots[i := Some(slot)];
      log := log + {(key, value)};
      assert (key, value) in log;
    }

    /** Put a value into the cell of slot `i`, or into a new cell when the slot is empty. */
    method PlaceValue(i: nat, value: V) returns (cell: nat)
      requires Valid() && i < |slots|
      modifies pool
      ensures pool.Valid() && cell < |old(pool.cells)| && pool.cells == old(pool.cells)[cell := Some(value)]
      ensures if slots[i].Some? then cell == slots[i].value.cell else old(pool.cells)[cell].None?
    {
      if slots[i].Some? {
        cell := slots[i].value.cell;
        pool.cells := pool.cells[cell := Some(value)];
      } else {
        EmptySlotMeansEmptyCell(slots, pool.cells, i);
        var taken := pool.Allocate(value);
        cell := taken.value;
      }
    }

    /** Empty slot `i` and give its cell back. */
    method ClearSlot(i: nat)
      requires Valid() && i < |slots| && slots[i].Some?
      modifies this`slots, pool
      ensures Valid() && (old(Undamaged()) ==> Undamaged())
      ensures slots == old(slots)[i := None]
      ensures pool.cells == old(pool.cells)[old(slots)[i].value.cell := None]
      ensures forall b, t: nat :: Sees(b, t) == old(SeesWithout(b, i, t))
    {
      ghost var before, cells := slots, pool.cells;
      ClearKeepsLinks(slots, pool.cells, i);
      var cell := slots[i].value.cell;
      slots := slots[i := None];
      var _ := pool.Deallocate(cell);
      forall b, t: nat ensures Sees(b, t) == VisibleWithout(before, cells, addressOf(b), i, t) {
        ClearIsSeenAs(before, cells, i, addressOf(b), t);
      }
    }

    /** What a removal of `key` at `now` leaves visible at `t`: the slot it uncovers, while that has not expired. */
    ghost function Underneath(key: K, now: nat, t: nat): Option<V>
      requires Valid()
      reads this, pool
    {
      var under := Covered(slots, addressOf(key), now);
      if under.Some? && !slots[under.value].value.expiry.IsPast(t) then Some(ValueAt(slots, pool.cells, under.value)) else None
    }

    /**
     Drop the live slot a search for `key` finds. The key is gone afterwards exactly when that slot was
     not covering another, unexpired one of the same key.
     */
    method Remove(key: K, now: nat)
      requires Valid()
      modifies this`slots, pool
      ensures Valid() && (old(Undamaged()) ==> Undamaged())
      ensures LiveMatch(old(slots), addressOf(key), now).None? ==> slots == old(slots) && unchanged(pool)
      ensures forall b, t: nat :: addressOf(b) != addressOf(key) ==> Sees(b, t) == old(Sees(b, t))
      ensures forall t: nat :: now <= t ==> Sees(key, t) == old(Underneath(key, now, t))
    {
      var idx := FindSlot(slots, addressOf(key), now);
      if idx.Some? {
        ClearSlot(idx.value);
      }
    }

    /** Drop the lowest slot describing an address, if any: one slot is freed and every other stays. Every key, the address's own included, then reads what it would without that slot. */
    method RemoveIfAddress(address: KeyAddress) returns (removed: bool)
      requires Valid()
      modifies this`slots, pool
      ensures Valid() && (old(Undamaged()) ==> Undamaged())
      ensures removed <==> exists i :: 0 <= i < |old(slots)| && Describes(old(slots)[i], address)
      ensures !removed ==> slots == old(slots) && unchanged(pool)
      ensures removed ==>
                exists i: nat :: i < |old(slots)| && IsFirstHolder(old(slots), address, i) && slots == old(slots)[i := None]
                  && forall b, t: nat :: Sees(b, t) == old(SeesWithout(b, i, t))
      ensures forall b, t: nat :: addressOf(b) != address ==> Sees(b, t) == old(Sees(b, t))
    {
      for idx := 0 to |slots|
        invariant slots == old(slots) && unchanged(pool)
        invariant forall i :: 0 <= i < idx ==> !Describes(slots[i], address)
      {
        if Describes(slots[idx], address) {
          assert IsFirstHolder(slots, address, idx);
          ClearSlot(idx);
          return true;
        }
      }
      removed := false;
    }

    /** Nominate the next live slot round-robin and move the cursor past it; with none live, the first occupied slot. */
    method EvictionCandidate(now: nat) returns (r: Option<KeyAddress>)
      requires Valid()
      modifies `cursor
      ensures var victim := Fairness.Victim(Liveness(slots, now), old(cursor));
              if victim.Some? then r == Some(slots[victim.value].value.address) && cursor == victim.value + 1
              else cursor == old(cursor) + 1
                   && (if r.None? then forall i :: 0 <= i < |slots| ==> slots[i].None?
                       else exists i: nat :: i < |slots| && IsFirstHolder(slots, r.value, i) && forall j :: 0 <= j < i ==> slots[j].None?)
    {
      var victim := NextLive(slots, cursor % |slots|, now);
      if victim.Some? {
        cursor := victim.value + 1;
        return Some(slots[victim.value].value.address);
      }
      cursor := cursor + 1;
      var first := FirstOccupied(slots);
      r := if first.Some? then Some(slots[first.value].value.address) else None;
    }
  }

  /** A zero capacity is a configuration error, reported rather than built. */
  method WithCapacity<K(!new), V>(capacity: nat, addressOf: K -> KeyAddress, digestOf: V -> nat)
    returns (r: Result<FixedTierStub<K, V>>)
    ensures if capacity == 0 then r == Err(ConfigurationError)
            else r.Ok? && r.value.Valid() && r.value.Undamaged() && |r.value.slots| == capacity
                 && forall k, now: nat :: r.value.Sees(k, now).None?
  {
    if capacity == 0 {
      return Err(ConfigurationError);
    }
    var pool := NewPool<V>(capacity);
    var stub := new FixedTierStub<K, V>(pool.value, addressOf, digestOf);
    r := Ok(stub);
  }
}
