/** The burn that has a message stored in every run, and a run that stores nothing cheaper (multiverse/storage.go). */
module Prices {
  import opened Messages
  import opened Parameters
  import opened PeerWeights
  import opened ManaCost
  import opened Tangle
  import Dag
  import Solidifier
  import Storage

  // ----- settings -----

  /** No price is negative, and none is updated before slot 1. */
  ghost predicate Nonnegative(c: Config) {
    c.Sensible() && 0.0 <= c.initialRMC && 0.0 <= c.rmcMax && 0.0 <= c.rmcIncrease && 0 <= c.rmcTime
  }

  lemma NoUpdatesBefore(c: Config, slot: Slot)
    requires Nonnegative(c) && slot <= 0
    ensures !Started(c, slot) && !Continues(c, slot)
  {
    StartedIsLater(c, slot);
  }

  lemma {:induction false} HighestIsNotNegative(c: Config, slot: Slot)
    requires Nonnegative(c)
    ensures 0.0 <= Highest(c, slot)
    decreases if slot < 0 then 0 else slot
  {
    if slot > 0 {
      HighestIsNotNegative(c, slot - 1);
    } else {
      NoUpdatesBefore(c, slot);
    }
  }

  // ----- the traffic that makes prices highest -----

  /** The number of messages in `slot` that make the update highest in whose range it is the last slot. */
  function Needed(c: Config, slot: Slot): nat
    requires c.Sensible()
  {
    var updated := slot + c.minCommittableAge / c.slotTime + 1;
    if 0 < updated && Updates(c, updated) then c.rmcPeriodUpdate * BestTraffic(c, Highest(c, updated - 1)) else 0
  }

  /** The slot that the update of slot 1 counts as its last. */
  function FirstNeeded(c: Config): Slot
    requires c.Sensible()
  {
    -(c.minCommittableAge / c.slotTime)
  }

  /** The stored messages of a slot. */
  ghost function IssuedIn(c: Config, genesisTime: Time, db: Dag.Ledger, slot: Slot): set<MessageID>
    requires c.Sensible()
  {
    set id | id in db && Storage.SlotIndex(c, genesisTime, db[id].issuanceTime) == slot
  }

  ghost function Count(c: Config, genesisTime: Time, db: Dag.Ledger, slot: Slot): nat
    requires c.Sensible()
  {
    |IssuedIn(c, genesisTime, db, slot)|
  }

  /** As many as needed in the slots before `slot`, `some` in that slot, and none later. */
  ghost function Wanted(c: Config, slot: Slot, some: nat, k: Slot): nat
    requires c.Sensible()
  {
    if k == slot then some else if FirstNeeded(c) <= k < slot then Needed(c, k) else 0
  }

  ghost predicate Filled(c: Config, genesisTime: Time, db: Dag.Ledger, slot: Slot, some: nat)
    requires c.Sensible()
  {
    forall k :: Count(c, genesisTime, db, k) == Wanted(c, slot, some, k)
  }

  lemma {:induction false} OnlyTheLast(slots: Storage.Slots, start: Slot, end: Slot)
    requires start < end && forall k :: start <= k < end - 1 ==> |Storage.InSlot(slots, k)| == 0
    ensures Storage.CountInRange(slots, start, end) == |Storage.InSlot(slots, end - 1)|
    decreases end - start
  {
    if start < end - 1 {
      OnlyTheLast(slots, start, end - 1);
    }
  }

  lemma SlotIsIssuedIn(c: Config, genesisTime: Time, db: Dag.Ledger, slots: Storage.Slots, k: Slot)
    requires c.Sensible() && Storage.SlotsIndexed(Storage.SlotMap(c, genesisTime, db), slots)
    ensures Storage.InSlot(slots, k) == IssuedIn(c, genesisTime, db, k)
  {
    var index := Storage.SlotMap(c, genesisTime, db);
    forall id
      ensures id in Storage.InSlot(slots, k) <==> id in IssuedIn(c, genesisTime, db, k)
    {
      assert id in Storage.InSlot(slots, k) <==> id in index && index[id] == k;
    }
  }

  /** An update finds the traffic that was provided for it. */
  lemma {:induction false} TrafficIsBest(c: Config, genesisTime: Time, db: Dag.Ledger, slots: Storage.Slots, slot: Slot)
    requires c.Sensible() && 0 < slot && Updates(c, slot) && Filled(c, genesisTime, db, slot, 0)
    requires Storage.SlotsIndexed(Storage.SlotMap(c, genesisTime, db), slots)
    ensures Storage.Traffic(c, slots, slot) == BestTraffic(c, Highest(c, slot - 1))
  {
    hide Updates, Storage.SlotsIndexed, Storage.SlotMap, Highest, BestTraffic, IssuedIn;
    var age, p := c.minCommittableAge / c.slotTime, c.rmcPeriodUpdate;
    var start, end := slot - age - p, slot - age;
    forall k | start <= k < end
      ensures |Storage.InSlot(slots, k)| == if k == end - 1 then p * BestTraffic(c, Highest(c, slot - 1)) else 0
    {
      SlotIsIssuedIn(c, genesisTime, db, slots, k);
      assert Count(c, genesisTime, db, k) == Wanted(c, slot, 0, k);
      if k < end - 1 {
        BetweenUpdates(c, slot, k + age + 1);
      }
    }
    OnlyTheLast(slots, start, end);
    Division(p, p * BestTraffic(c, Highest(c, slot - 1)), BestTraffic(c, Highest(c, slot - 1)), 0);
  }

  lemma BetweenUpdates(c: Config, slot: Slot, k: Slot)
    requires c.Sensible() && Updates(c, slot) && slot - c.rmcPeriodUpdate < k < slot
    ensures !Updates(c, k)
  {
    NotABoundary(c.rmcPeriodUpdate, k, slot);
  }

  lemma OneMoreIn(c: Config, genesisTime: Time, db: Dag.Ledger, m: Message, k: Slot)
    requires c.Sensible() && m.id !in db
    ensures Count(c, genesisTime, db[m.id := m], k)
         == Count(c, genesisTime, db, k) + if k == Storage.SlotIndex(c, genesisTime, m.issuanceTime) then 1 else 0
  {
    hide Storage.SlotIndex;
    var before, after := IssuedIn(c, genesisTime, db, k), IssuedIn(c, genesisTime, db[m.id := m], k);
    assert m.id !in before;
    if k == Storage.SlotIndex(c, genesisTime, m.issuanceTime) {
      assert after == before + {m.id};
    } else {
      assert after == before;
    }
  }

  lemma OneMoreIssued(c: Config, genesisTime: Time, db: Dag.Ledger, slot: Slot, some: nat, m: Message)
    requires c.Sensible() && Filled(c, genesisTime, db, slot, some) && m.id !in db
    requires Storage.SlotIndex(c, genesisTime, m.issuanceTime) == slot
    ensures Filled(c, genesisTime, db[m.id := m], slot, some + 1)
  {
    hide Count, Storage.SlotIndex;
    var db' := db[m.id := m];
    forall k
      ensures Count(c, genesisTime, db', k) == Wanted(c, slot, some + 1, k)
    {
      assert Count(c, genesisTime, db, k) == Wanted(c, slot, some, k);
      OneMoreIn(c, genesisTime, db, m, k);
    }
  }

  lemma SlotIsFilled(c: Config, genesisTime: Time, db: Dag.Ledger, slot: Slot)
    requires c.Sensible() && FirstNeeded(c) <= slot && Filled(c, genesisTime, db, slot, Needed(c, slot))
    ensures Filled(c, genesisTime, db, slot + 1, 0)
  {
    hide Count;
    forall k
      ensures Count(c, genesisTime, db, k) == Wanted(c, slot + 1, 0, k)
    {
      assert Count(c, genesisTime, db, k) == Wanted(c, slot, Needed(c, slot), k);
    }
  }

  lemma NothingIssued(c: Config, genesisTime: Time)
    requires c.Sensible()
    ensures Filled(c, genesisTime, map[], FirstNeeded(c), 0)
  {
    var db: Dag.Ledger := map[];
    forall k
      ensures Count(c, genesisTime, db, k) == Wanted(c, FirstNeeded(c), 0, k)
    {
      assert IssuedIn(c, genesisTime, db, k) == {};
    }
  }

  // ----- prices after slots were asked for in order -----

  /** The slots before `slot` were touched, and the last of them has its highest price. */
  ghost predicate Dear(c: Config, s: State, slot: Slot)
    requires c.Sensible()
  {
    && (forall k :: k in s.slots ==> k < slot)
    && if slot <= 0 then forall k :: k in s.rmc ==> k < slot && s.rmc[k] == 0.0
       else AheadOf(c, s.rmc, slot - 1) && s.rmc[slot - 1] == Highest(c, slot - 1)
  }

  lemma {:induction false} AskedIsDear(c: Config, s: State, slot: Slot, traffic: nat)
    requires Nonnegative(c) && c.icca && Dear(c, s, slot)
    requires 0 < slot && Updates(c, slot) ==> traffic == BestTraffic(c, Highest(c, slot - 1))
    ensures Dear(c, Step(c, s, Asked(slot, traffic)), slot + 1)
  {
    var rmc' := NewRMC(c, s.rmc, slot, traffic);
    assert Step(c, s, Asked(slot, traffic)) == State(rmc', s.slots + {slot});
    if slot <= 0 {
      NoUpdatesBefore(c, slot);
    } else {
      HighestIsNotNegative(c, slot - 1);
      if Updates(c, slot) {
        LevelIsReached(c, Highest(c, slot - 1));
        hide NextLevel, HighestLevel, BestTraffic, Updates;
        forall k | k in s.rmc
          ensures k < slot
        {
          assert !Inside(c, slot);
        }
        FilledAhead(c, s.rmc, slot, NextLevel(c, Highest(c, slot - 1), traffic));
      } else {
        assert forall k :: k in rmc' && k > slot ==> rmc'[k] == s.rmc[slot - 1];
      }
    }
  }

  lemma {:induction false} DearPrice(c: Config, s: State, slot: Slot)
    requires Nonnegative(c) && c.icca && Dear(c, s, slot + 1) && slot in s.rmc
    ensures s.rmc[slot] == Highest(c, slot)
  {
    if slot < 0 {
      NoUpdatesBefore(c, slot);
    }
  }

  lemma KnownStays(c: Config, s: State, slot: Slot, traffic: nat, next: Slot)
    requires c.Sensible() && Dear(c, s, next) && slot in s.rmc && slot < next
    ensures Step(c, s, Stored(slot, traffic)).rmc == s.rmc && Dear(c, Step(c, s, Stored(slot, traffic)), next)
  {
  }

  // ----- the run -----

  /** The beginning of a slot. */
  function Begin(c: Config, genesisTime: Time, slot: Slot): Time {
    genesisTime + slot * (c.slotTime * c.slowdownFactor)
  }

  lemma BeginsInSlot(c: Config, genesisTime: Time, slot: Slot)
    requires c.Sensible()
    ensures Storage.SlotIndex(c, genesisTime, Begin(c, genesisTime, slot)) == slot
  {
    var length := c.slotTime * c.slowdownFactor;
    assert length > 0;
    if slot >= 0 {
      Division(length, slot * length, slot, 0);
    } else {
      Division(length, -slot * length, -slot, 0);
    }
  }

  lemma SlotsInOrder(t: Tangle)
    requires t.Quiescent()
    ensures Storage.SlotsIndexed(Storage.SlotMap(t.config, t.storage.genesisTime, t.storage.messageDB),
                                 t.storage.slotDB)
    ensures t.config.Sensible()
  {
    hide Tangle.Quiescent, Storage.SlotsIndexed;
    t.SchedulerInOrder();
    t.scheduler.StorageInOrder({});
  }

  /** All that is stored was issued to make prices rise, under identities after `id`. */
  ghost predicate Raised(t: Tangle, slot: Slot, asked: bool, some: nat, id: MessageID, next: MessageID)
    requires t.config.Sensible()
    reads t.storage
  {
    && Dear(t.config, t.storage.CostState(), if asked then slot + 1 else slot)
    && (asked ==> slot in t.storage.rmc)
    && Filled(t.config, t.storage.genesisTime, t.storage.messageDB, slot, some)
    && forall x :: x in t.storage.messageDB ==> id < x < next
  }

  /** Asks for the price of the next slot. */
  method Ask(t: Tangle, slot: Slot, ghost id: MessageID, ghost next: MessageID)
    requires t.Quiescent() && Nonnegative(t.config) && t.config.icca && 0 <= t.scheduler.peer < t.config.nodesCount
    requires Raised(t, slot, false, 0, id, next)
    modifies t.storage`rmc, t.storage`slotDB, t.storage`touches
    ensures t.Quiescent() && Raised(t, slot, true, 0, id, next)
  {
    hide Tangle.Quiescent, Run, Filled, Dear, Storage.SlotIndex, Storage.SlotsIndexed, Storage.SlotMap, Updates,
      Storage.Traffic, Highest;
    var config, genesisTime := t.config, t.storage.genesisTime;
    BeginsInSlot(config, genesisTime, slot);
    SlotsInOrder(t);
    t.PricesAreOfTouches();
    if 0 < slot && Updates(config, slot) {
      TrafficIsBest(config, genesisTime, t.storage.messageDB, t.storage.slotDB, slot);
    }
    ghost var touches, traffic := t.storage.touches, Storage.Traffic(config, t.storage.slotDB, slot);
    var cost, ok := t.BurnValue(Begin(config, genesisTime, slot));
    t.PricesAreOfTouches();
    RunOn(config, touches, Asked(slot, traffic));
    AskedIsDear(config, Run(config, touches), slot, traffic);
  }

  /** Issues one more message in the slot, for its highest price. */
  method IssueOne(t: Tangle, slot: Slot, ghost some: nat, ghost id: MessageID, next: MessageID)
    requires t.Quiescent() && Nonnegative(t.config) && t.config.icca && 0 <= t.scheduler.peer < t.config.nodesCount
    requires Raised(t, slot, true, some, id, next) && 0 < id < next
    modifies t.storage, t.storage.footprint, t.requester, t.opinions, t.scheduler, t.booker, t.approvalManager
    modifies t.solidifier
    ensures t.Quiescent() && Raised(t, slot, true, some + 1, id, next + 1)
    ensures fresh(t.storage.footprint - old(t.storage.footprint))
  {
    hide Tangle.Quiescent, Run, Filled, Dear, Storage.SlotIndex, Storage.Traffic, Highest, Solidifier.Continues;
    var config, genesisTime := t.config, t.storage.genesisTime;
    var m := Message(false, next, {GENESIS}, {}, 1, t.scheduler.peer, UNDEFINED, Begin(config, genesisTime, slot),
                     Highest(config, slot));
    BeginsInSlot(config, genesisTime, slot);
    DearPrice(config, t.storage.CostState(), slot);
    DeliverKnown(t, m, slot, slot + 1);
    OneMoreIssued(config, genesisTime, old(t.storage.messageDB), slot, some, m);
  }

  /** Issues as many messages as are needed in the slot. */
  method IssueNeeded(t: Tangle, slot: Slot, ghost id: MessageID, next: MessageID) returns (next': MessageID)
    requires t.Quiescent() && Nonnegative(t.config) && t.config.icca && 0 <= t.scheduler.peer < t.config.nodesCount
    requires Raised(t, slot, true, 0, id, next) && 0 < id < next
    requires FirstNeeded(t.config) <= slot
    modifies t.storage, t.storage.footprint, t.requester, t.opinions, t.scheduler, t.booker, t.approvalManager
    modifies t.solidifier
    ensures t.Quiescent() && id < next' && Raised(t, slot + 1, false, 0, id, next')
    ensures fresh(t.storage.footprint - old(t.storage.footprint))
  {
    hide Tangle.Quiescent, Dear, Filled, Needed;
    next' := next;
    for some := 0 to Needed(t.config, slot)
      invariant id < next' && t.Quiescent() && Raised(t, slot, true, some, id, next')
      invariant fresh(t.storage.footprint - old(t.storage.footprint))
    {
      IssueOne(t, slot, some, id, next');
      next' := next' + 1;
    }
    SlotIsFilled(t.config, t.storage.genesisTime, t.storage.messageDB, slot);
  }

  /** A message for a slot whose price is known. */
  method DeliverKnown(t: Tangle, m: Message, slot: Slot, ghost next: Slot)
    requires t.Quiescent() && Nonnegative(t.config) && Sound(t.config, m) && m.id !in t.storage.messageDB
    requires Dear(t.config, t.storage.CostState(), next) && slot < next && slot in t.storage.rmc
    requires Storage.SlotIndex(t.config, t.storage.genesisTime, m.issuanceTime) == slot
    modifies t.storage, t.storage.footprint, t.requester, t.opinions, t.scheduler, t.booker, t.approvalManager
    modifies t.solidifier
    ensures t.Quiescent() && Dear(t.config, t.storage.CostState(), next) && t.storage.rmc == old(t.storage.rmc)
    ensures t.storage.messageDB == if m.manaBurnValue >= t.storage.rmc[slot]
                                     then old(t.storage.messageDB)[m.id := m] else old(t.storage.messageDB)
    ensures fresh(t.storage.footprint - old(t.storage.footprint))
  {
    hide Tangle.Quiescent, Run, Dear, Storage.SlotIndex, Storage.Traffic, Solidifier.Continues, Sound;
    t.PricesAreOfTouches();
    ghost var touches, traffic := t.storage.touches, Storage.Traffic(t.config, t.storage.slotDB, slot);
    t.ProcessMessage(m);
    t.PricesAreOfTouches();
    RunOn(t.config, touches, Stored(slot, traffic));
    KnownStays(t.config, Run(t.config, touches), slot, traffic, next);
  }

  /** A node in which the slot has its highest price, and only identities after `id` are taken. */
  method Raise(
    config: Config, genesisTime: Time, distribution: ConsensusWeightDistribution, quanta: seq<real>, peer: PeerID,
    slot: Slot, id: MessageID) returns (t: Tangle)
    requires Suitable(config, quanta, distribution) && Nonnegative(config) && config.icca
    requires 0 <= peer < config.nodesCount && 0 < id && 0 < slot
    ensures fresh(t) && t.Quiescent() && t.config == config && t.storage.genesisTime == genesisTime
    ensures Dear(config, t.storage.CostState(), slot + 1) && slot in t.storage.rmc && id !in t.storage.messageDB
    ensures fresh(t.storage) && fresh(t.storage.footprint) && fresh(t.requester) && fresh(t.opinions)
    ensures fresh(t.scheduler) && fresh(t.booker) && fresh(t.approvalManager) && fresh(t.solidifier)
  {
    hide Tangle.Quiescent, Dear, Filled, Needed;
    t := new Tangle(config, peer, false, genesisTime, quanta, distribution);
    NothingTouchedYet(t);
    NothingIssued(config, genesisTime);
    var next, k := id + 1, FirstNeeded(config);
    while k < slot
      invariant k <= slot && id < next && t.Quiescent() && fresh(t.storage.footprint)
      invariant FirstNeeded(config) <= k && Raised(t, k, false, 0, id, next)
      decreases slot - k
    {
      Ask(t, k, id, next);
      next := IssueNeeded(t, k, id, next);
      k := k + 1;
    }
    Ask(t, slot, id, next);
  }

  lemma NothingTouchedYet(t: Tangle)
    requires t.Quiescent() && t.storage.touches == [] && Nonnegative(t.config)
    ensures Dear(t.config, t.storage.CostState(), FirstNeeded(t.config))
  {
    hide Tangle.Quiescent, Run;
    t.PricesAreOfTouches();
    NothingTouched(t.config);
  }

  /**
   Exactly the messages that burn the highest price of their slot are stored in every run: those are
   (`Tangle.ProcessMessages`), and at the end of this run the others are delivered but not stored.
   */
  method Dearest(
    config: Config, genesisTime: Time, distribution: ConsensusWeightDistribution, quanta: seq<real>, peer: PeerID,
    m: Message) returns (t: Tangle)
    requires Suitable(config, quanta, distribution) && Nonnegative(config)
    requires 0 <= peer < config.nodesCount && Sound(config, m)
    ensures t.Quiescent()
    ensures m.id in t.storage.messageDB <==> m.manaBurnValue >= HighestPrice(config, genesisTime, m)
  {
    hide Tangle.Quiescent, Run, Dear, Storage.SlotIndex, Storage.Traffic, Solidifier.Continues, Highest;
    var slot := Storage.SlotIndex(config, genesisTime, m.issuanceTime);
    if config.icca && 0 < slot {
      t := Raise(config, genesisTime, distribution, quanta, peer, slot, m.id);
      DearPrice(config, t.storage.CostState(), slot);
      DeliverKnown(t, m, slot, slot + 1);
    } else {
      t := new Tangle(config, peer, false, genesisTime, quanta, distribution);
      ghost var traffic := Storage.Traffic(config, t.storage.slotDB, slot);
      t.ProcessMessage(m);
      t.PricesAreOfTouches();
      if slot <= 0 {
        NoUpdatesBefore(config, slot);
      }
      FirstReached(config, slot, traffic);
    }
  }
}
