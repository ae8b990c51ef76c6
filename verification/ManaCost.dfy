/** The reference mana cost of the slots (multiverse/storage.go), as a table filled slot by slot. */
module ManaCost {
  import opened Parameters

  type Slot = int
  type Table = map<Slot, real>

  /** Reading a missing entry of the table gives zero. */
  function At(rmc: Table, slot: Slot): real {
    if slot in rmc then rmc[slot] else 0.0
  }

  /** The slot starts later than the time for which costs stay initial. */
  predicate Started(c: Config, slot: Slot) {
    slot * c.slowdownFactor * c.slotTime > c.rmcTime * c.slowdownFactor
  }

  predicate Updates(c: Config, slot: Slot)
    requires c.Sensible()
  {
    Started(c, slot) && slot % c.rmcPeriodUpdate == 0
  }

  /** The cost for the period that begins now, given the cost before it. */
  function NextLevel(c: Config, last: real, traffic: int): real {
    if traffic < TruncateReal(c.lowerRMCThreshold) then
      if last - c.rmcDecrease > c.rmcMin then last - c.rmcDecrease else c.rmcMin
    else if traffic > TruncateReal(c.upperRMCThreshold) then
      if last + c.rmcIncrease < c.rmcMax then last + c.rmcIncrease else c.rmcMax
    else last
  }

  /** The table with the `count` entries from `slot` on set to one value. */
  function Fill(rmc: Table, slot: Slot, count: nat, level: real): (r: Table)
    ensures forall k :: k in r <==> k in rmc || slot <= k < slot + count
    ensures forall k :: k in r ==> r[k] == if slot <= k < slot + count then level else rmc[k]
  {
    if count == 0 then rmc else Fill(rmc, slot, count - 1, level)[slot + count - 1 := level]
  }

  lemma {:induction false} FillNone(rmc: Table, slot: Slot, level: real)
    ensures Fill(rmc, slot, 0, level) == rmc
  {
  }

  /** Filling one entry after the other leaves the one before the period as it is. */
  lemma {:induction false} FillOneMore(rmc: Table, slot: Slot, count: nat, level: real)
    ensures Fill(rmc, slot, count + 1, level) == Fill(rmc, slot, count, level)[slot + count := level]
    ensures At(Fill(rmc, slot, count, level), slot - 1) == At(rmc, slot - 1)
  {
  }

  lemma FillCovers(rmc: Table, slot: Slot, x: real, count: nat, level: real)
    requires 0 < count
    ensures Fill(rmc[slot := x], slot, count, level) == Fill(rmc, slot, count, level)
    ensures At(rmc[slot := x], slot - 1) == At(rmc, slot - 1)
  {
    var r, r' := Fill(rmc, slot, count, level), Fill(rmc[slot := x], slot, count, level);
    forall k
      ensures (k in r <==> k in r') && (k in r ==> r[k] == r'[k])
    {
    }
  }

  /** The table after the cost of `slot` was computed. An update fills the entries of a whole period ahead. */
  function NewRMC(c: Config, rmc: Table, slot: Slot, traffic: int): Table
    requires c.Sensible()
  {
    if !c.icca then rmc[slot := 0.0]
    else if slot == 0 then rmc[slot := c.initialRMC]
    else if Updates(c, slot) then
      Fill(rmc, slot, c.rmcPeriodUpdate, NextLevel(c, At(rmc, slot - 1), traffic))
    else rmc[slot := At(rmc, slot - 1)]
  }

  /**
   A price is carried on, except in slots that begin more than RMCtime after the genesis and are a multiple of the
   period: there it falls by a step if the traffic is below the lower threshold, but not below the lowest price, and
   rises by a step if the traffic is above the upper one, but not above the highest price. That holds for the period.
   */
  lemma PriceStep(c: Config, rmc: Table, slot: Slot, traffic: nat)
    requires c.Sensible() && c.icca && slot != 0
    ensures slot * c.slotTime <= c.rmcTime || slot % c.rmcPeriodUpdate != 0 ==>
      NewRMC(c, rmc, slot, traffic) == rmc[slot := At(rmc, slot - 1)]
    ensures slot * c.slotTime > c.rmcTime && slot % c.rmcPeriodUpdate == 0 ==>
      var rmc', last := NewRMC(c, rmc, slot, traffic), At(rmc, slot - 1);
      var few := traffic as real + 1.0 <= c.lowerRMCThreshold;
      var many := traffic as real > c.upperRMCThreshold && (traffic > 0 || c.upperRMCThreshold <= -1.0);
      var level := if few then Max(last - c.rmcDecrease, c.rmcMin)
                   else if many then Min(last + c.rmcIncrease, c.rmcMax) else last;
      && (forall k :: k in rmc' <==> k in rmc || slot <= k < slot + c.rmcPeriodUpdate)
      && forall k :: k in rmc' ==> rmc'[k] == if slot <= k < slot + c.rmcPeriodUpdate then level else rmc[k]
  {
    StartedIff(c, slot);
    hide Started, Fill;
  }

  lemma StartedIff(c: Config, slot: Slot)
    requires c.Sensible()
    ensures Started(c, slot) <==> slot * c.slotTime > c.rmcTime
  {
    var length := slot * c.slotTime;
    assert slot * c.slowdownFactor * c.slotTime == length * c.slowdownFactor;
    if length > c.rmcTime {
      Multiples(c.slowdownFactor, c.rmcTime, length);
    } else if length < c.rmcTime {
      Multiples(c.slowdownFactor, length, c.rmcTime);
    }
  }

  function Max(x: real, y: real): real {
    if x < y then y else x
  }

  function Min(x: real, y: real): real {
    if x < y then x else y
  }

  /** The two ways in which a slot is touched: a message of it is stored, or its cost is asked for. */
  datatype Touch = Stored(slot: Slot, traffic: nat) | Asked(slot: Slot, traffic: nat)

  datatype State = State(rmc: Table, slots: set<Slot>)

  function Step(c: Config, s: State, t: Touch): State
    requires c.Sensible()
  {
    var known := if t.Stored? then t.slot in s.rmc else t.slot in s.slots;
    State(if known then s.rmc else NewRMC(c, s.rmc, t.slot, t.traffic), s.slots + {t.slot})
  }

  function Run(c: Config, ts: seq<Touch>): State
    requires c.Sensible()
  {
    if ts == [] then State(map[], {}) else Step(c, Run(c, ts[..|ts| - 1]), ts[|ts| - 1])
  }

  lemma {:induction false} NothingTouched(c: Config)
    requires c.Sensible()
    ensures Run(c, []) == State(map[], {})
  {
  }

  lemma {:induction false} RunOn(c: Config, ts: seq<Touch>, t: Touch)
    requires c.Sensible()
    ensures Run(c, ts + [t]) == Step(c, Run(c, ts), t)
  {
    assert (ts + [t])[..|ts|] == ts;
  }

  /** Storing a message does not change the price of a slot that has one. */
  lemma {:induction false} KnownPriceStays(c: Config, ts: seq<Touch>, t: Touch)
    requires c.Sensible() && t.Stored? && t.slot in Run(c, ts).rmc
    ensures Run(c, ts + [t]).rmc == Run(c, ts).rmc
  {
    RunOn(c, ts, t);
  }

  /** The message slots always have a cost. */
  lemma {:induction false} SlotsHaveCost(c: Config, ts: seq<Touch>)
    requires c.Sensible()
    ensures Run(c, ts).slots <= Run(c, ts).rmc.Keys
  {
    if ts != [] {
      SlotsHaveCost(c, ts[..|ts| - 1]);
    }
  }

  // ----- bounds -----

  ghost predicate Bounds(c: Config) {
    c.Sensible() && c.icca && c.rmcMin <= c.initialRMC <= c.rmcMax && 0.0 <= c.rmcDecrease && 0.0 <= c.rmcIncrease
  }

  ghost predicate InRange(c: Config, rmc: Table) {
    forall k :: k in rmc ==> c.rmcMin <= rmc[k] <= c.rmcMax
  }

  ghost predicate Touched(ts: seq<Touch>, slot: Slot) {
    exists i :: 0 <= i < |ts| && ts[i].slot == slot
  }

  /** Slots are first touched in the order 0, 1, 2, ... */
  ghost predicate InOrder(ts: seq<Touch>) {
    ts == [] || (
      var before, slot := ts[..|ts| - 1], ts[|ts| - 1].slot;
      InOrder(before) && (slot == 0 || (0 < slot && Touched(before, slot - 1))))
  }

  /** An entry equals the one before it, except at an update, where it moves by a bounded amount. */
  ghost predicate SmallStep(c: Config, rmc: Table, k: Slot)
    requires c.Sensible()
  {
    if k % c.rmcPeriodUpdate != 0 then At(rmc, k) == At(rmc, k - 1)
    else At(rmc, k - 1) - c.rmcDecrease <= At(rmc, k) <= At(rmc, k - 1) + c.rmcIncrease
  }

  /** The first `m` slots have an entry, the last of them perhaps ahead of time. */
  ghost predicate Stepwise(c: Config, rmc: Table, m: nat)
    requires c.Sensible()
  {
    && (forall k :: k in rmc <==> 0 <= k < m)
    && forall k :: 1 <= k < m ==> SmallStep(c, rmc, k)
  }

  ghost predicate Ahead(c: Config, n: nat, m: nat)
    requires c.Sensible()
  {
    m == n || (n < m < n + c.rmcPeriodUpdate && m % c.rmcPeriodUpdate == 0)
  }

  lemma Division(p: int, x: int, q: int, r: int)
    requires 0 < p && x == p * q + r && 0 <= r < p
    ensures x / p == q && x % p == r
  {
    var d := x / p - q;
    assert p * d == r - x % p;
    assert d >= 1 ==> p * d >= p;
    assert d <= -1 ==> p * d <= -p;
  }

  lemma NotABoundary(p: int, n: int, m: int)
    requires 0 < p && n < m < n + p && m % p == 0
    ensures n % p != 0
  {
    var a := m / p;
    assert p * (a - 1) == m - p;
    Division(p, n, a - 1, n - m + p);
  }

  lemma NextBoundary(p: int, n: int)
    requires 0 < p && n % p == 0
    ensures (n + p) % p == 0
    ensures forall k :: n < k < n + p ==> k % p != 0
  {
    assert p * (n / p + 1) == n + p;
    Division(p, n + p, n / p + 1, 0);
    forall k | n < k < n + p
      ensures k % p != 0
    {
      NotABoundary(p, k, n + p);
    }
  }

  lemma UpdateKeepsBounds(c: Config, rmc: Table, n: nat, traffic: int)
    requires Bounds(c) && InRange(c, rmc) && Stepwise(c, rmc, n) && 0 < n && Updates(c, n)
    ensures var rmc' := NewRMC(c, rmc, n, traffic);
      InRange(c, rmc') && Stepwise(c, rmc', n + c.rmcPeriodUpdate) && Ahead(c, n + 1, n + c.rmcPeriodUpdate)
  {
    var rmc' := NewRMC(c, rmc, n, traffic);
    NextBoundary(c.rmcPeriodUpdate, n);
    assert n - 1 in rmc && At(rmc', n - 1) == At(rmc, n - 1);
    forall k | 1 <= k < n + c.rmcPeriodUpdate
      ensures SmallStep(c, rmc', k)
    {
      assert k < n ==> SmallStep(c, rmc, k);
    }
  }

  lemma CarryKeepsBounds(c: Config, rmc: Table, n: nat, traffic: int)
    requires Bounds(c) && InRange(c, rmc) && Stepwise(c, rmc, n) && (n == 0 || !Updates(c, n))
    ensures InRange(c, NewRMC(c, rmc, n, traffic)) && Stepwise(c, NewRMC(c, rmc, n, traffic), n + 1)
  {
    var rmc' := NewRMC(c, rmc, n, traffic);
    assert n > 0 ==> n - 1 in rmc;
    forall k | 1 <= k < n + 1
      ensures SmallStep(c, rmc', k)
    {
      assert k < n ==> SmallStep(c, rmc, k);
    }
  }

  /** The state after the first `n` slots were touched: `m` entries, in range and stepwise. */
  ghost predicate Orderly(c: Config, s: State, n: nat, m: nat)
    requires c.Sensible()
  {
    && InRange(c, s.rmc) && Stepwise(c, s.rmc, m) && Ahead(c, n, m)
    && forall k :: k in s.slots <==> 0 <= k < n
  }

  /** Asking for the cost of a slot that was filled ahead computes it again, to the same value. */
  lemma AskingPrefilledChangesNothing(c: Config, rmc: Table, n: nat, m: nat, traffic: int)
    requires Bounds(c) && Stepwise(c, rmc, m) && Ahead(c, n, m) && n < m
    ensures n > 0 && NewRMC(c, rmc, n, traffic) == rmc
  {
    NotABoundary(c.rmcPeriodUpdate, n, m);
    assert n > 0 && SmallStep(c, rmc, n);
  }

  /** One touch of a known slot, or of the next one, keeps the table in range and stepwise. */
  lemma TouchKeepsBounds(c: Config, s: State, n: nat, m: nat, t: Touch) returns (m': nat)
    requires Bounds(c) && Orderly(c, s, n, m) && 0 <= t.slot <= n
    ensures Orderly(c, Step(c, s, t), if t.slot == n then n + 1 else n, m')
  {
    m' := m;
    if t.slot < n {
      assert Step(c, s, t).rmc == s.rmc;
    } else if n < m {
      AskingPrefilledChangesNothing(c, s.rmc, n, m, t.traffic);
    } else if n > 0 && Updates(c, n) {
      UpdateKeepsBounds(c, s.rmc, n, t.traffic);
      m' := n + c.rmcPeriodUpdate;
    } else {
      CarryKeepsBounds(c, s.rmc, n, t.traffic);
      m' := n + 1;
    }
  }

  /** Over every run with slots first touched in order, prefilled entries or not. */
  lemma {:induction false} CostsStayBounded(c: Config, ts: seq<Touch>) returns (n: nat, m: nat)
    requires Bounds(c) && InOrder(ts)
    ensures Orderly(c, Run(c, ts), n, m)
    ensures forall i :: 0 <= i < |ts| ==> ts[i].slot < n
  {
    if ts == [] {
      n, m := 0, 0;
    } else {
      var before, t := ts[..|ts| - 1], ts[|ts| - 1];
      var n0, m0 := CostsStayBounded(c, before);
      assert forall i :: 0 <= i < |before| ==> ts[i] == before[i];
      if t.slot != 0 {
        var j :| 0 <= j < |before| && before[j].slot == t.slot - 1;
        assert before[j].slot < n0;
      }
      m := TouchKeepsBounds(c, Run(c, before), n0, m0, t);
      n := if t.slot == n0 then n0 + 1 else n0;
    }
  }

  /** Within one update period the cost does not move. */
  lemma {:induction false} ConstantWithinPeriod(c: Config, rmc: Table, m: nat, i: nat, j: nat)
    requires c.Sensible() && Stepwise(c, rmc, m)
    requires i <= j < m && forall k :: i < k <= j ==> k % c.rmcPeriodUpdate != 0
    ensures rmc[i] == rmc[j]
  {
    if i < j {
      assert SmallStep(c, rmc, j);
      ConstantWithinPeriod(c, rmc, m, i, j - 1);
    }
  }

  /**
   What decides whether a new price is within the bounds: it continues a known price, or what it makes of the price
   zero of an unknown one happens to be within them.
   */
  predicate Grounded(c: Config, rmc: Table, slot: Slot, traffic: int)
    requires c.Sensible()
  {
    || slot == 0 || slot - 1 in rmc
    || (if Updates(c, slot) && traffic < TruncateReal(c.lowerRMCThreshold) then -c.rmcDecrease <= c.rmcMax
        else if Updates(c, slot) && traffic > TruncateReal(c.upperRMCThreshold) then c.rmcMin <= c.rmcIncrease
        else c.rmcMin <= 0.0 <= c.rmcMax)
  }

  /** The order matters: exactly the grounded prices are within the bounds. */
  lemma InRangeIffGrounded(c: Config, rmc: Table, slot: Slot, traffic: int)
    requires Bounds(c) && InRange(c, rmc)
    ensures InRange(c, NewRMC(c, rmc, slot, traffic)) <==> Grounded(c, rmc, slot, traffic)
  {
    assert slot in NewRMC(c, rmc, slot, traffic);
  }

  /** The failing input: a later slot is touched first. */
  lemma {:induction false} OutOfOrder(c: Config, slot: Slot, traffic: nat)
    requires Bounds(c) && 0.0 < c.rmcMin && slot != 0 && !Updates(c, slot)
    ensures !InRange(c, Run(c, [Stored(slot, traffic)]).rmc)
  {
    var t := Stored(slot, traffic);
    assert [] + [t] == [t];
    RunOn(c, [], t);
    assert At(Run(c, [t]).rmc, slot) == 0.0;
  }

  predicate Known(s: State, t: Touch) {
    if t.Stored? then t.slot in s.rmc else t.slot in s.slots
  }

  ghost predicate GroundedAt(c: Config, ts: seq<Touch>, i: nat)
    requires c.Sensible() && i < |ts|
  {
    Known(Run(c, ts[..i]), ts[i]) || Grounded(c, Run(c, ts[..i]).rmc, ts[i].slot, ts[i].traffic)
  }

  ghost predicate InRangeAt(c: Config, ts: seq<Touch>, i: nat)
    requires c.Sensible() && i <= |ts|
  {
    InRange(c, Run(c, ts[..i]).rmc)
  }

  lemma OneTouch(c: Config, ts: seq<Touch>, i: nat)
    requires Bounds(c) && i < |ts| && InRangeAt(c, ts, i)
    ensures InRangeAt(c, ts, i + 1) <==> GroundedAt(c, ts, i)
  {
    var s := Run(c, ts[..i]);
    assert ts[..i + 1][..i] == ts[..i];
    InRangeIffGrounded(c, s.rmc, ts[i].slot, ts[i].traffic);
  }

  /**
   Over every run, in whatever order slots are touched: prices never leave the bounds iff all of them are grounded.
   */
  lemma {:induction false} AlwaysInRangeIff(c: Config, ts: seq<Touch>, n: nat)
    requires Bounds(c) && n <= |ts|
    ensures (forall i :: 0 <= i <= n ==> InRangeAt(c, ts, i)) <==> (forall i :: 0 <= i < n ==> GroundedAt(c, ts, i))
  {
    if n == 0 {
      assert ts[..0] == [];
    } else {
      AlwaysInRangeIff(c, ts, n - 1);
      if InRangeAt(c, ts, n - 1) {
        OneTouch(c, ts, n - 1);
      }
    }
  }

  /** What keeps prices below the maximum: it is not negative, and no setting is above it. */
  ghost predicate Capped(c: Config) {
    0.0 <= c.rmcMax && c.rmcMin <= c.rmcMax && c.initialRMC <= c.rmcMax && 0.0 <= c.rmcDecrease
  }

  /** No price is ever above the maximum, in whatever order slots are touched. */
  lemma {:induction false} NeverAboveMaximum(c: Config, ts: seq<Touch>, slot: Slot)
    requires c.Sensible() && Capped(c)
    ensures At(Run(c, ts).rmc, slot) <= c.rmcMax
  {
    if ts != [] {
      NeverAboveMaximum(c, ts[..|ts| - 1], slot);
      NeverAboveMaximum(c, ts[..|ts| - 1], ts[|ts| - 1].slot - 1);
    }
  }

  // ----- the highest price of a slot -----

  /** The highest level that an update can make of the price `last`, over all traffic that may have been counted. */
  function HighestLevel(c: Config, last: real): real {
    var lower, upper := TruncateReal(c.lowerRMCThreshold), TruncateReal(c.upperRMCThreshold);
    var raised := if last + c.rmcIncrease < c.rmcMax then last + c.rmcIncrease else c.rmcMax;
    var lowered := if last - c.rmcDecrease > c.rmcMin then last - c.rmcDecrease else c.rmcMin;
    Max(raised, Max(if 0 < lower then lowered else raised, if 0 <= upper && lower <= upper then last else raised))
  }

  lemma LevelIsNotHigher(c: Config, last: real, most: real, traffic: nat)
    requires last <= most
    ensures NextLevel(c, last, traffic) <= HighestLevel(c, most)
  {
  }

  /** A traffic for which the level becomes highest. */
  function BestTraffic(c: Config, last: real): nat {
    var lower, upper := TruncateReal(c.lowerRMCThreshold), TruncateReal(c.upperRMCThreshold);
    var above := (if lower > upper then lower else upper) + 1;
    var high, kept := if 0 <= above then above else 0, if 0 < lower then lower else 0;
    var best := if 0 < lower && NextLevel(c, last, high) < NextLevel(c, last, 0) then 0 else high;
    if 0 <= upper && lower <= upper && NextLevel(c, last, best) < NextLevel(c, last, kept) then kept else best
  }

  lemma LevelIsReached(c: Config, last: real)
    ensures NextLevel(c, last, BestTraffic(c, last)) == HighestLevel(c, last)
  {
  }

  lemma StartedIsLater(c: Config, slot: Slot)
    requires c.Sensible()
    ensures Started(c, slot) && slot < 0 ==> slot > c.rmcTime
  {
    if slot < 0 && slot <= c.rmcTime {
      Times(c.slotTime, slot);
      Scaled(slot * c.slotTime, c.rmcTime, c.slowdownFactor);
      assert slot * c.slowdownFactor * c.slotTime == slot * c.slotTime * c.slowdownFactor;
    }
  }

  lemma Times(x: int, y: int)
    requires 1 <= x && y <= 0
    ensures y * x <= y
  {
  }

  lemma Scaled(x: int, y: int, z: int)
    requires x <= y && 0 <= z
    ensures x * z <= y * z
  {
  }

  /** The highest price of a slot: the previous one, or zero where that is unknown, perhaps updated. */
  function Highest(c: Config, slot: Slot): real
    requires c.Sensible()
    decreases if slot < 0 then slot - c.rmcTime else slot
  {
    if !c.icca || (slot < 0 && !Started(c, slot)) then 0.0
    else if slot == 0 then c.initialRMC
    else
      StartedIsLater(c, slot);
      var last := Max(0.0, Highest(c, slot - 1));
      if Updates(c, slot) then HighestLevel(c, last) else last
  }

  /** No entry of the table is above the highest price of its slot. */
  ghost predicate BelowHighest(c: Config, rmc: Table)
    requires c.Sensible()
  {
    forall k :: k in rmc ==> rmc[k] <= Highest(c, k)
  }

  lemma StartedGoesOn(c: Config, slot: Slot, later: Slot)
    requires c.Sensible() && Started(c, slot) && slot <= later
    ensures Started(c, later)
  {
    Scaled(slot, later, c.slowdownFactor);
    Scaled(slot * c.slowdownFactor, later * c.slowdownFactor, c.slotTime);
  }

  /** What is filled in ahead is not above the highest price of the later slots. */
  lemma {:induction false} HighestWithinPeriod(c: Config, slot: Slot, k: Slot)
    requires c.Sensible() && c.icca && slot != 0 && Updates(c, slot) && slot <= k < slot + c.rmcPeriodUpdate
    ensures Highest(c, slot) <= Highest(c, k)
    decreases k - slot
  {
    if slot < k {
      HighestWithinPeriod(c, slot, k - 1);
      NextBoundary(c.rmcPeriodUpdate, slot);
      StartedGoesOn(c, slot, k);
      NotZero(c.rmcPeriodUpdate, slot, k);
    }
  }

  /** No period goes over slot 0 without beginning there. */
  lemma NotZero(p: int, slot: Slot, k: Slot)
    requires 0 < p && slot % p == 0 && slot < k < slot + p
    ensures k != 0
  {
    NextBoundary(p, slot);
  }

  lemma {:induction false} PriceIsBelowHighest(c: Config, rmc: Table, slot: Slot, traffic: nat)
    requires c.Sensible() && BelowHighest(c, rmc)
    ensures BelowHighest(c, NewRMC(c, rmc, slot, traffic))
  {
    var rmc' := NewRMC(c, rmc, slot, traffic);
    if c.icca && slot != 0 {
      var last := At(rmc, slot - 1);
      NothingBeforeStart(c, slot);
      assert last <= Max(0.0, Highest(c, slot - 1));
      LevelIsNotHigher(c, last, Max(0.0, Highest(c, slot - 1)), traffic);
      forall k | k in rmc'
        ensures rmc'[k] <= Highest(c, k)
      {
        if Updates(c, slot) && slot <= k < slot + c.rmcPeriodUpdate {
          HighestWithinPeriod(c, slot, k);
        }
      }
    } else {
      assert forall k :: k in rmc' && k != slot ==> rmc'[k] == rmc[k];
    }
  }

  /** Before the costs may change, slots before the first one cost nothing. */
  lemma {:induction false} NothingBeforeStart(c: Config, slot: Slot)
    requires c.Sensible()
    ensures slot < 0 && !Started(c, slot) ==> Highest(c, slot - 1) == 0.0
  {
    if Started(c, slot - 1) {
      StartedGoesOn(c, slot - 1, slot);
    }
  }

  /** In every run, prices are not above the highest ones. */
  lemma {:induction false} NeverAboveHighest(c: Config, ts: seq<Touch>)
    requires c.Sensible()
    ensures BelowHighest(c, Run(c, ts).rmc)
  {
    if ts != [] {
      var before, t := ts[..|ts| - 1], ts[|ts| - 1];
      NeverAboveHighest(c, before);
      PriceIsBelowHighest(c, Run(c, before).rmc, t.slot, t.traffic);
    }
  }

  predicate Inside(c: Config, k: Slot)
    requires c.Sensible()
  {
    k % c.rmcPeriodUpdate != 0 && k != 0
  }

  /** The later entries were filled in ahead: they have the price of the slot and belong to its period. */
  ghost predicate AheadOf(c: Config, rmc: Table, slot: Slot)
    requires c.Sensible()
  {
    slot in rmc && forall k :: k in rmc && k > slot ==>
      rmc[k] == rmc[slot] && forall j :: slot < j <= k ==> Inside(c, j)
  }

  /** A run after which a slot has its highest price. */
  ghost predicate Reaches(c: Config, ts: seq<Touch>, slot: Slot)
    requires c.Sensible()
  {
    var rmc := Run(c, ts).rmc;
    AheadOf(c, rmc, slot) && rmc[slot] == Highest(c, slot)
  }

  /** The price is made from that of the slot before. */
  predicate Continues(c: Config, slot: Slot)
    requires c.Sensible()
  {
    c.icca && slot != 0 && (slot > 0 || Started(c, slot))
  }

  /** The highest price of every slot is reached by some run. */
  lemma {:induction false} HighestIsReached(c: Config, slot: Slot) returns (ts: seq<Touch>, traffic: nat)
    requires c.Sensible()
    ensures Reaches(c, ts + [Stored(slot, traffic)], slot)
    decreases if slot < 0 then slot - c.rmcTime else slot
  {
    ts, traffic := [], 0;
    if Continues(c, slot) {
      StartedIsLater(c, slot);
      var last := Highest(c, slot - 1);
      traffic := BestTraffic(c, Max(0.0, last));
      LevelIsReached(c, Max(0.0, last));
      if last >= 0.0 {
        var before, t := HighestIsReached(c, slot - 1);
        ts := before + [Stored(slot - 1, t)];
        NextReached(c, ts, slot, traffic);
      } else {
        FirstReached(c, slot, traffic);
      }
    } else {
      NothingBeforeStart(c, slot);
      FirstReached(c, slot, traffic);
    }
  }

  lemma {:induction false} FirstReached(c: Config, slot: Slot, traffic: nat)
    requires c.Sensible()
    requires Continues(c, slot) ==> Highest(c, slot - 1) <= 0.0 && NextLevel(c, 0.0, traffic) == HighestLevel(c, 0.0)
    ensures Reaches(c, [] + [Stored(slot, traffic)], slot)
  {
    RunOn(c, [], Stored(slot, traffic));
    if c.icca && slot != 0 && Updates(c, slot) {
      FilledAhead(c, map[], slot, NextLevel(c, 0.0, traffic));
    }
  }

  lemma {:induction false} FilledAhead(c: Config, rmc: Table, slot: Slot, level: real)
    requires c.Sensible() && slot % c.rmcPeriodUpdate == 0 && forall k :: k in rmc ==> k < slot
    ensures AheadOf(c, Fill(rmc, slot, c.rmcPeriodUpdate, level), slot)
    ensures Fill(rmc, slot, c.rmcPeriodUpdate, level)[slot] == level
  {
    NextBoundary(c.rmcPeriodUpdate, slot);
    forall j | slot < j < slot + c.rmcPeriodUpdate
      ensures Inside(c, j)
    {
      NotZero(c.rmcPeriodUpdate, slot, j);
    }
  }

  lemma {:induction false} NextReached(c: Config, ts: seq<Touch>, slot: Slot, traffic: nat)
    requires c.Sensible() && Continues(c, slot) && Reaches(c, ts, slot - 1) && Highest(c, slot - 1) >= 0.0
    requires NextLevel(c, Highest(c, slot - 1), traffic) == HighestLevel(c, Highest(c, slot - 1))
    ensures Reaches(c, ts + [Stored(slot, traffic)], slot)
  {
    hide Run, NextLevel, HighestLevel;
    RunOn(c, ts, Stored(slot, traffic));
    var rmc := Run(c, ts).rmc;
    if Updates(c, slot) {
      forall k | k in rmc
        ensures k < slot
      {
        assert !Inside(c, slot);
      }
      FilledAhead(c, rmc, slot, NextLevel(c, Highest(c, slot - 1), traffic));
    } else if slot in rmc {
      assert rmc[slot] == rmc[slot - 1];
    } else {
      assert forall k :: k in rmc && k > slot ==> rmc[k] == rmc[slot - 1];
    }
  }

  /** Whoever burns the highest price of the slot can always pay. */
  lemma {:induction false} HighestPays(c: Config, ts: seq<Touch>, slot: Slot, traffic: nat)
    requires c.Sensible()
    ensures At(Run(c, ts + [Stored(slot, traffic)]).rmc, slot) <= Highest(c, slot)
  {
    hide Run, Highest, NextLevel, HighestLevel;
    NeverAboveHighest(c, ts + [Stored(slot, traffic)]);
    SlotsHaveCost(c, ts + [Stored(slot, traffic)]);
    RunOn(c, ts, Stored(slot, traffic));
    assert slot in Run(c, ts + [Stored(slot, traffic)]).slots;
  }

  /** Exactly those burns that reach the highest price of its slot have a message stored in every run. */
  lemma {:induction false} PaysAlwaysIff(c: Config, slot: Slot, burn: real)
    requires c.Sensible()
    ensures (forall ts, traffic: nat :: burn >= At(Run(c, ts + [Stored(slot, traffic)]).rmc, slot))
       <==> burn >= Highest(c, slot)
  {
    hide Run, Highest, NextLevel, HighestLevel;
    forall ts, traffic: nat
      ensures At(Run(c, ts + [Stored(slot, traffic)]).rmc, slot) <= Highest(c, slot)
    {
      HighestPays(c, ts, slot, traffic);
    }
    var ts, traffic := HighestIsReached(c, slot);
    assert At(Run(c, ts + [Stored(slot, traffic)]).rmc, slot) == Highest(c, slot);
  }

  /** Where no setting is above the highest price, no slot can become dearer than that. */
  lemma {:induction false} HighestIsCapped(c: Config, slot: Slot)
    requires c.Sensible() && Capped(c)
    ensures Highest(c, slot) <= c.rmcMax
    decreases if slot < 0 then slot - c.rmcTime else slot
  {
    if Continues(c, slot) {
      StartedIsLater(c, slot);
      HighestIsCapped(c, slot - 1);
    }
  }

  /** Before the first update all that matters is whether the initial price was carried on. */
  lemma {:induction false} HighestBeforeUpdates(c: Config, slot: Slot)
    requires c.Sensible() && c.icca && 0 < slot && forall k :: 0 < k <= slot ==> !Updates(c, k)
    ensures Highest(c, slot) == Max(0.0, c.initialRMC)
    decreases slot
  {
    if slot > 1 {
      HighestBeforeUpdates(c, slot - 1);
    }
  }
}
