/** The message store of a node with its indexes (multiverse/storage.go). */
module Storage {
  import opened Messages
  import opened Parameters
  import opened Metadata
  import Dag
  import ManaCost

  type Children = map<MessageID, set<MessageID>>
  type Slots = map<ManaCost.Slot, set<MessageID>>

  function ChildrenOf(children: Children, id: MessageID): set<MessageID> {
    if id in children then children[id] else {}
  }

  /** Both child tables list, for every parent, exactly the stored messages that name it. */
  ghost predicate ChildrenIndexed(db: Dag.Ledger, strong: Children, weak: Children) {
    && (forall p, c :: c in ChildrenOf(strong, p) <==> c in db && p in db[c].strongParents)
    && (forall p, c :: c in ChildrenOf(weak, p) <==> c in db && p in db[c].weakParents)
  }

  lemma ChildrenAreStored(db: Dag.Ledger, strong: Children, weak: Children, p: MessageID)
    requires ChildrenIndexed(db, strong, weak)
    ensures ChildrenOf(strong, p) + ChildrenOf(weak, p) <= db.Keys
    ensures forall c :: c in db && p in db[c].Parents() ==> c in ChildrenOf(strong, p) + ChildrenOf(weak, p)
  {
    forall c
      ensures c in ChildrenOf(strong, p) <==> c in db && p in db[c].strongParents
      ensures c in ChildrenOf(weak, p) <==> c in db && p in db[c].weakParents
    {
    }
  }

  function SlotIndex(c: Config, genesisTime: Time, t: Time): ManaCost.Slot
    requires c.Sensible()
  {
    Truncate(t - genesisTime, c.slotTime * c.slowdownFactor)
  }

  /** A slot holds the times of its own length after the genesis, and slot 0 those within a length on either side. */
  lemma SlotIffTime(c: Config, genesisTime: Time, t: Time, k: ManaCost.Slot)
    requires c.Sensible()
    ensures var length := c.slotTime * c.slowdownFactor;
      SlotIndex(c, genesisTime, t) == k <==>
        if k > 0 then k * length <= t - genesisTime < k * length + length
        else if k < 0 then k * length - length < t - genesisTime <= k * length
        else -length < t - genesisTime < length
  {
    TruncatedIff(t - genesisTime, c.slotTime * c.slowdownFactor, k);
  }

  function InSlot(slots: Slots, slot: ManaCost.Slot): set<MessageID> {
    if slot in slots then slots[slot] else {}
  }

  /** The slot every stored message was issued in. */
  ghost function SlotMap(c: Config, genesisTime: Time, db: Dag.Ledger): map<MessageID, ManaCost.Slot>
    requires c.Sensible()
  {
    map id | id in db :: SlotIndex(c, genesisTime, db[id].issuanceTime)
  }

  /** The slot table lists every message of `index` in its slot, and nothing else. */
  ghost predicate SlotsIndexed(index: map<MessageID, ManaCost.Slot>, slots: Slots) {
    forall s, id :: id in InSlot(slots, s) <==> id in index && index[id] == s
  }

  function CountInRange(slots: Slots, start: ManaCost.Slot, end: ManaCost.Slot): nat
    decreases end - start
  {
    if end <= start then 0 else CountInRange(slots, start, end - 1) + |InSlot(slots, end - 1)|
  }

  /** The count by slots is the number of messages issued in the range. */
  lemma {:induction false} CountIsNumberOfMessages(
    index: map<MessageID, ManaCost.Slot>, slots: Slots, start: ManaCost.Slot, end: ManaCost.Slot)
    requires SlotsIndexed(index, slots)
    ensures CountInRange(slots, start, end) == |set id | id in index && start <= index[id] < end|
    decreases end - start
  {
    var all := set id | id in index && start <= index[id] < end;
    if end <= start {
      assert all == {};
    } else {
      CountIsNumberOfMessages(index, slots, start, end - 1);
      var front := set id | id in index && start <= index[id] < end - 1;
      forall id
        ensures id in InSlot(slots, end - 1) <==> id in index && index[id] == end - 1
      {
      }
      assert all == front + InSlot(slots, end - 1);
      assert front !! InSlot(slots, end - 1);
    }
  }

  lemma EmptySlotIndexesNothing(index: map<MessageID, ManaCost.Slot>, slots: Slots, slots': Slots)
    requires SlotsIndexed(index, slots) && forall s :: InSlot(slots, s) == InSlot(slots', s)
    ensures SlotsIndexed(index, slots')
  {
    forall s, id {:trigger id in InSlot(slots', s)}
      ensures id in InSlot(slots', s) <==> id in index && index[id] == s
    {
      assert id in InSlot(slots, s) <==> id in index && index[id] == s;
    }
  }

  lemma {:induction false} EmptySlotCountsNothing(
    slots: Slots, slots': Slots, start: ManaCost.Slot, end: ManaCost.Slot)
    requires forall s :: InSlot(slots, s) == InSlot(slots', s)
    ensures CountInRange(slots, start, end) == CountInRange(slots', start, end)
    decreases end - start
  {
    if start < end {
      EmptySlotCountsNothing(slots, slots', start, end - 1);
    }
  }

  lemma ChildrenStayIndexed(
    db: Dag.Ledger, m: Message, strong: Children, weak: Children, strong': Children, weak': Children)
    requires ChildrenIndexed(db, strong, weak) && m.id !in db
    requires forall p, c ::
      c in ChildrenOf(strong', p) <==> c in ChildrenOf(strong, p) || (c == m.id && p in m.strongParents)
    requires forall p, c ::
      c in ChildrenOf(weak', p) <==> c in ChildrenOf(weak, p) || (c == m.id && p in m.weakParents)
    ensures ChildrenIndexed(db[m.id := m], strong', weak')
  {
  }

  lemma SlotsStayIndexed(
    index: map<MessageID, ManaCost.Slot>, slots: Slots, id: MessageID, slot: ManaCost.Slot)
    requires SlotsIndexed(index, slots) && id !in index && slot in slots
    ensures SlotsIndexed(index[id := slot], slots[slot := slots[slot] + {id}])
  {
    var slots' := slots[slot := slots[slot] + {id}];
    forall s, x {:trigger x in InSlot(slots', s)}
      ensures x in InSlot(slots', s) <==> x in index[id := slot] && index[id := slot][x] == s
    {
      assert InSlot(slots', s) == if s == slot then InSlot(slots, s) + {id} else InSlot(slots, s);
      assert x in InSlot(slots, s) <==> x in index && index[x] == s;
    }
  }

  /** The number of messages per slot that decides about the cost of `slot`. */
  function Traffic(c: Config, slots: Slots, slot: ManaCost.Slot): nat
    requires c.Sensible()
  {
    var age := c.minCommittableAge / c.slotTime;
    CountInRange(slots, slot - age - c.rmcPeriodUpdate, slot - age) / c.rmcPeriodUpdate
  }

  /** It is the average over a period of slots, the last of which is one committable age back. */
  lemma {:induction false} TrafficIsAverage(
    c: Config, index: map<MessageID, ManaCost.Slot>, slots: Slots, slot: ManaCost.Slot)
    requires c.Sensible() && SlotsIndexed(index, slots)
    ensures var end := slot - c.minCommittableAge / c.slotTime;
      var counted := |set id | id in index && end - c.rmcPeriodUpdate <= index[id] < end|;
      Traffic(c, slots, slot) * c.rmcPeriodUpdate <= counted < (Traffic(c, slots, slot) + 1) * c.rmcPeriodUpdate
  {
    var end := slot - c.minCommittableAge / c.slotTime;
    CountIsNumberOfMessages(index, slots, end - c.rmcPeriodUpdate, end);
    CutOff(CountInRange(slots, end - c.rmcPeriodUpdate, end), c.rmcPeriodUpdate);
  }

  /** A message may be scheduled when it is solid and its parents are eligible. */
  ghost predicate ParentsEligible(db: Dag.Ledger, view: map<MessageID, Record>, confEligible: bool, id: MessageID)
    requires id in db
  {
    forall p :: p in db[id].strongParents + db[id].weakParents && p != GENESIS ==>
      p in view && (view[p].scheduled || (confEligible && view[p].confirmed))
  }

  class Storage {
    const config: Config
    const genesisTime: Time
    var messageDB: Dag.Ledger
    var metadataDB: map<MessageID, MessageMetadata>
    var strongChildrenDB: Children
    var weakChildrenDB: Children
    var slotDB: Slots
    var acceptedSlotDB: Slots
    var rmc: ManaCost.Table
    var ATT: Time
    ghost var view: map<MessageID, Record> // the recorded facts, by message
    ghost var footprint: set<object>       // the metadata objects and their bitmaps
    ghost var touches: seq<ManaCost.Touch> // the slots that were touched, by messages and by questions

    ghost predicate Valid()
      reads this, footprint
    {
      && config.Sensible() && this !in footprint
      && ValidMetadata()
      && Dag.WellFormed(messageDB)
      && (forall id :: id in messageDB ==> 0 <= messageDB[id].issuer < config.nodesCount)
      && IndexesOf(messageDB)
      && slotDB.Keys <= rmc.Keys && Priced()
    }

    /** The prices are those of the touches so far. */
    ghost predicate Priced()
      requires config.Sensible()
      reads this`rmc, this`slotDB, this`touches
    {
      CostState() == ManaCost.Run(config, touches)
    }

    /** The child and slot tables list exactly the messages of `db`. */
    ghost predicate IndexesOf(db: Dag.Ledger)
      requires config.Sensible()
      reads this`strongChildrenDB, this`weakChildrenDB, this`slotDB
    {
      && ChildrenIndexed(db, strongChildrenDB, weakChildrenDB)
      && SlotsIndexed(SlotMap(config, genesisTime, db), slotDB)
    }

    /** Every stored message has its own metadata object, and `view` shows what it records. */
    ghost predicate ValidMetadata()
      reads this`messageDB, this`metadataDB, this`view, this`footprint, footprint
    {
      && messageDB.Keys == metadataDB.Keys == view.Keys
      && (forall id :: id in metadataDB ==>
           && metadataDB[id] in footprint && metadataDB[id].weightSlice in footprint
           && metadataDB[id].id == id
           && metadataDB[id].Value() == view[id]
           && |view[id].weightSlice| == SliceLength(config.nodesCount))
      && (forall a, b :: a in metadataDB && b in metadataDB && a != b ==>
           metadataDB[a].weightSlice != metadataDB[b].weightSlice)
    }

    constructor (config: Config, genesisTime: Time)
      requires config.Sensible()
      ensures Valid() && footprint == {} && this.config == config && this.genesisTime == genesisTime
      ensures messageDB == map[] && rmc == map[] && slotDB == map[] && ATT == genesisTime && acceptedSlotDB == map[]
      ensures touches == []
    {
      this.config, this.genesisTime, ATT := config, genesisTime, genesisTime;
      messageDB, metadataDB, strongChildrenDB, weakChildrenDB := map[], map[], map[], map[];
      slotDB, acceptedSlotDB, rmc := map[], map[], map[];
      view, footprint, touches := map[], {}, [];
    }

    ghost function CostState(): ManaCost.State
      reads this`rmc, this`slotDB
    {
      ManaCost.State(rmc, slotDB.Keys)
    }

    // ----- storing -----

    /** The message was issued too long before the accepted tangle time. */
    predicate TooOld(message: Message): (late: bool)
      reads this`ATT
      ensures late <==> message.issuanceTime + config.minCommittableAge * config.slowdownFactor < ATT
    {
      message.issuanceTime < ATT - config.minCommittableAge * config.slowdownFactor
    }

    method Store(message: Message) returns (stored: bool)
      requires Valid() && Dag.WellFormedMessage(message) && 0 <= message.issuer < config.nodesCount
      modifies this
      ensures Valid() && fresh(footprint - old(footprint)) && old(footprint) <= footprint
      ensures ATT == old(ATT) && acceptedSlotDB == old(acceptedSlotDB)
      ensures message.id in old(messageDB) ==>
        !stored && rmc == old(rmc) && slotDB == old(slotDB) && touches == old(touches)
      ensures message.id !in old(messageDB) ==>
        var slot := SlotIndex(config, genesisTime, message.issuanceTime);
        && touches == old(touches) + [ManaCost.Stored(slot, Traffic(config, old(slotDB), slot))]
        && (stored <==> message.manaBurnValue >= ManaCost.At(rmc, slot))
      ensures messageDB == if stored then old(messageDB)[message.id := message] else old(messageDB)
      ensures !stored ==> view == old(view)
      ensures stored ==> Recorded(old(view), view, message)
      ensures stored ==>
        && message.id in view
        && view[message.id].orphaned
             == (message.issuanceTime + config.minCommittableAge * config.slowdownFactor < ATT)
    {
      hide ManaCost.Run, Traffic, SlotMap, ChildrenIndexed, Dag.WellFormed, SlotsIndexed, Recorded;
      if message.id in messageDB {
        return false;
      }
      var slotIndex := SlotIndex(config, genesisTime, message.issuanceTime);
      TouchSlot(slotIndex);
      if message.manaBurnValue < rmc[slotIndex] {
        return false;
      }
      StoreNew(message, slotIndex);
      stored := true;
    }

    method StoreNew(message: Message, slotIndex: ManaCost.Slot)
      requires Valid() && Dag.WellFormedMessage(message) && 0 <= message.issuer < config.nodesCount
      requires message.id !in messageDB && slotIndex in slotDB
      requires slotIndex == SlotIndex(config, genesisTime, message.issuanceTime)
      modifies this`messageDB, this`metadataDB, this`view, this`footprint
      modifies this`slotDB, this`strongChildrenDB, this`weakChildrenDB
      ensures Valid() && fresh(footprint - old(footprint)) && old(footprint) <= footprint
      ensures messageDB == old(messageDB)[message.id := message]
      ensures slotDB.Keys == old(slotDB).Keys
      ensures Recorded(old(view), view, message) && message.id in view
      ensures view[message.id].orphaned
           == (message.issuanceTime + config.minCommittableAge * config.slowdownFactor < ATT)
    {
      hide ValidMetadata, ChildrenIndexed, SlotsIndexed, SlotMap, Dag.WellFormed, Dag.WellFormedMessage, ManaCost.Run,
        Priced;
      var messageMetadata := NewMetadata(message);
      Insert(message, slotIndex, messageMetadata);
    }

    /** Enters a new message into all tables. */
    method Insert(message: Message, slotIndex: ManaCost.Slot, messageMetadata: MessageMetadata)
      requires Valid() && Dag.WellFormedMessage(message) && 0 <= message.issuer < config.nodesCount
      requires message.id !in messageDB && slotIndex in slotDB
      requires slotIndex == SlotIndex(config, genesisTime, message.issuanceTime)
      requires messageMetadata !in footprint && messageMetadata.weightSlice !in footprint
      requires messageMetadata.id == message.id && messageMetadata.weightSlice.Length == SliceLength(config.nodesCount)
      modifies this`messageDB, this`metadataDB, this`view, this`footprint
      modifies this`slotDB, this`strongChildrenDB, this`weakChildrenDB
      ensures Valid()
      ensures footprint == old(footprint) + {messageMetadata, messageMetadata.weightSlice}
      ensures messageDB == old(messageDB)[message.id := message]
      ensures slotDB == old(slotDB)[slotIndex := old(slotDB)[slotIndex] + {message.id}]
      ensures view == old(view)[message.id := messageMetadata.Value()]
    {
      hide ValidMetadata, ChildrenIndexed, SlotsIndexed, SlotMap, Dag.WellFormed, Dag.WellFormedMessage, ManaCost.Run;
      AddMessage(message, messageMetadata);
      IndexMessage(message, slotIndex, old(messageDB));
      Dag.StoringKeepsWellFormed(old(messageDB), message);
    }

    method IndexMessage(message: Message, slotIndex: ManaCost.Slot, ghost db: Dag.Ledger)
      requires config.Sensible() && IndexesOf(db)
      requires message.id !in db && slotIndex in slotDB
      requires slotIndex == SlotIndex(config, genesisTime, message.issuanceTime)
      modifies this`slotDB, this`strongChildrenDB, this`weakChildrenDB
      ensures IndexesOf(db[message.id := message])
      ensures slotDB == old(slotDB)[slotIndex := old(slotDB)[slotIndex] + {message.id}]
    {
      ghost var index := SlotMap(config, genesisTime, db);
      assert SlotMap(config, genesisTime, db[message.id := message]) == index[message.id := slotIndex];
      SlotsStayIndexed(index, slotDB, message.id, slotIndex);
      slotDB := slotDB[slotIndex := slotDB[slotIndex] + {message.id}];
      var strong := StoreChildReferences(message.id, strongChildrenDB, message.strongParents);
      var weak := StoreChildReferences(message.id, weakChildrenDB, message.weakParents);
      ChildrenStayIndexed(db, message, strongChildrenDB, weakChildrenDB, strong, weak);
      strongChildrenDB, weakChildrenDB := strong, weak;
    }

    /** Makes sure that the slot of a message has an entry and a cost. */
    method TouchSlot(slotIndex: ManaCost.Slot)
      requires Valid()
      modifies this`slotDB, this`rmc, this`touches
      ensures Valid() && slotIndex in slotDB
      ensures touches == old(touches) + [ManaCost.Stored(slotIndex, Traffic(config, old(slotDB), slotIndex))]
      ensures forall s :: InSlot(slotDB, s) == InSlot(old(slotDB), s)
    {
      hide ManaCost.NewRMC, SlotMap, ChildrenIndexed, Dag.WellFormed, Traffic, ManaCost.Run;
      ghost var touch := ManaCost.Stored(slotIndex, Traffic(config, slotDB, slotIndex));
      touches := touches + [touch];
      ManaCost.RunOn(config, old(touches), touch);
      if slotIndex !in slotDB {
        slotDB := slotDB[slotIndex := {}];
      }
      SameTraffic(old(slotDB), slotDB, slotIndex);
      if slotIndex !in rmc {
        NewRMC(slotIndex);
      }
      EmptySlotIndexesNothing(SlotMap(config, genesisTime, messageDB), old(slotDB), slotDB);
      hide SlotsIndexed;
    }

    method NewMetadata(message: Message) returns (messageMetadata: MessageMetadata)
      requires config.Sensible()
      ensures fresh(messageMetadata) && fresh(messageMetadata.weightSlice) && messageMetadata.id == message.id
      ensures var r := messageMetadata.Value();
           && r == Record(false, false, UNDEFINED, r.weightSlice, 0, false, TooOld(message), false)
           && |r.weightSlice| == SliceLength(config.nodesCount)
           && Witnesses(r.weightSlice, config.nodesCount) == {}
    {
      messageMetadata := new MessageMetadata(message.id, config.nodesCount);
      if TooOld(message) {
        messageMetadata.orphaned := true;
      }
    }

    /** Stores the message together with its metadata. */
    method AddMessage(message: Message, messageMetadata: MessageMetadata)
      requires this !in footprint && ValidMetadata() && message.id !in messageDB
      requires messageMetadata !in footprint && messageMetadata.weightSlice !in footprint
      requires messageMetadata.id == message.id && messageMetadata.weightSlice.Length == SliceLength(config.nodesCount)
      modifies this`messageDB, this`metadataDB, this`view, this`footprint
      ensures ValidMetadata()
      ensures footprint == old(footprint) + {messageMetadata, messageMetadata.weightSlice}
      ensures messageDB == old(messageDB)[message.id := message]
      ensures view == old(view)[message.id := messageMetadata.Value()]
    {
      assert forall id :: id in metadataDB ==>
        metadataDB[id] != messageMetadata && metadataDB[id].weightSlice != messageMetadata.weightSlice;
      messageDB := messageDB[message.id := message];
      metadataDB := metadataDB[message.id := messageMetadata];
      view := view[message.id := messageMetadata.Value()];
      footprint := footprint + {messageMetadata, messageMetadata.weightSlice};
    }

    /** `after` records one more message, of which nothing is known but whether it came too late. */
    ghost predicate Recorded(before: map<MessageID, Record>, after: map<MessageID, Record>, message: Message)
      reads this`ATT
    {
      && after.Keys == before.Keys + {message.id}
      && (forall id :: id in before && id != message.id ==> after[id] == before[id])
      && var r := after[message.id];
         && r == Record(false, false, UNDEFINED, r.weightSlice, 0, false, TooOld(message), false)
         && |r.weightSlice| == SliceLength(config.nodesCount)
         && Witnesses(r.weightSlice, config.nodesCount) == {}
    }

    method StoreChildReferences(id: MessageID, children: Children, parents: set<MessageID>)
      returns (r: Children)
      ensures forall p, c :: c in ChildrenOf(r, p) <==> c in ChildrenOf(children, p) || (c == id && p in parents)
    {
      r := children;
      var todo := parents;
      while todo != {}
        invariant todo <= parents
        invariant forall p, c ::
          c in ChildrenOf(r, p) <==> c in ChildrenOf(children, p) || (c == id && p in parents - todo)
      {
        Inhabited(todo);
        var parent :| parent in todo;
        if parent !in r {
          r := r[parent := {}];
        }
        ghost var before, was := r, todo;
        r := r[parent := r[parent] + {id}];
        todo := todo - {parent};
        forall p, c
          ensures c in ChildrenOf(r, p) <==> c in ChildrenOf(children, p) || (c == id && p in parents - todo)
        {
          assert c in ChildrenOf(r, p) <==> c in ChildrenOf(before, p) || (c == id && p == parent);
          assert c in ChildrenOf(before, p) <==> c in ChildrenOf(children, p) || (c == id && p in parents - was);
        }
      }
    }

    // ----- mana cost of slots -----

    lemma SameTraffic(slots: Slots, slots': Slots, slot: ManaCost.Slot)
      requires config.Sensible() && forall s :: InSlot(slots, s) == InSlot(slots', s)
      ensures Traffic(config, slots, slot) == Traffic(config, slots', slot)
    {
      var age := config.minCommittableAge / config.slotTime;
      EmptySlotCountsNothing(slots, slots', slot - age - config.rmcPeriodUpdate, slot - age);
    }

    /** Counts slot by slot, and so the stored messages that were issued in the slots. */
    method MessagesCountInRange(start: ManaCost.Slot, end: ManaCost.Slot) returns (count: nat)
      requires config.Sensible()
      ensures count == CountInRange(slotDB, start, end)
      ensures SlotsIndexed(SlotMap(config, genesisTime, messageDB), slotDB) ==>
        count == |set id | id in messageDB && start <= SlotIndex(config, genesisTime, messageDB[id].issuanceTime) < end|
    {
      count := 0;
      var slotIndex := start;
      while slotIndex < end
        invariant start <= slotIndex && (if start < end then slotIndex <= end else slotIndex == start)
        invariant count == CountInRange(slotDB, start, slotIndex)
      {
        if slotIndex in slotDB {
          count := count + |slotDB[slotIndex]|;
        }
        slotIndex := slotIndex + 1;
      }
      ghost var index := SlotMap(config, genesisTime, messageDB);
      if SlotsIndexed(index, slotDB) {
        CountIsNumberOfMessages(index, slotDB, start, end);
        assert (set id | id in index && start <= index[id] < end)
          == set id | id in messageDB && start <= SlotIndex(config, genesisTime, messageDB[id].issuanceTime) < end;
      }
    }

    method RMC(slotIndex: ManaCost.Slot) returns (cost: real)
      requires Valid()
      modifies this`rmc, this`slotDB, this`touches
      ensures Valid() && cost == ManaCost.At(rmc, slotIndex) && slotIndex in slotDB && slotIndex in rmc
      ensures touches == old(touches) + [ManaCost.Asked(slotIndex, Traffic(config, old(slotDB), slotIndex))]
      ensures forall s :: InSlot(slotDB, s) == InSlot(old(slotDB), s)
    {
      hide ManaCost.NewRMC, SlotMap, ChildrenIndexed, Dag.WellFormed, ManaCost.Run;
      ghost var touch := ManaCost.Asked(slotIndex, Traffic(config, slotDB, slotIndex));
      touches := touches + [touch];
      ManaCost.RunOn(config, old(touches), touch);
      if slotIndex !in slotDB {
        NewRMC(slotIndex);
        slotDB := slotDB[slotIndex := {}];
      }
      EmptySlotIndexesNothing(SlotMap(config, genesisTime, messageDB), old(slotDB), slotDB);
      hide SlotsIndexed;
      cost := rmc[slotIndex];
    }

    method NewRMC(slot: ManaCost.Slot)
      requires config.Sensible()
      modifies this`rmc
      ensures rmc == ManaCost.NewRMC(config, old(rmc), slot, Traffic(config, slotDB, slot))
      ensures old(rmc).Keys <= rmc.Keys && slot in rmc
    {
      hide ManaCost.Fill, ManaCost.NextLevel, SlotsIndexed, SlotMap, CountInRange;
      if !config.icca {
        rmc := rmc[slot := 0.0];
        return;
      }
      if slot == 0 {
        rmc := rmc[slot := config.initialRMC];
        return;
      }
      ghost var before := rmc;
      rmc := rmc[slot := ManaCost.At(rmc, slot - 1)];
      if ManaCost.Started(config, slot) {
        if slot % config.rmcPeriodUpdate == 0 {
          var age := config.minCommittableAge / config.slotTime;
          var count := MessagesCountInRange(slot - age - config.rmcPeriodUpdate, slot - age);
          var traffic := count / config.rmcPeriodUpdate;
          FillPeriod(slot, traffic, before);
        }
      }
    }

    method FillPeriod(slot: ManaCost.Slot, traffic: nat, ghost before: ManaCost.Table)
      requires config.Sensible() && rmc == before[slot := ManaCost.At(before, slot - 1)]
      modifies this`rmc
      ensures rmc == ManaCost.Fill(before, slot, config.rmcPeriodUpdate,
                                   ManaCost.NextLevel(config, ManaCost.At(before, slot - 1), traffic))
    {
      hide ManaCost.NextLevel, ManaCost.Fill;
      ghost var level := ManaCost.NextLevel(config, ManaCost.At(before, slot - 1), traffic);
      ghost var kept := rmc;
      var i := 0;
      ManaCost.FillNone(kept, slot, level);
      while i < config.rmcPeriodUpdate
        invariant 0 <= i <= config.rmcPeriodUpdate
        invariant rmc == ManaCost.Fill(kept, slot, i, level)
      {
        ManaCost.FillOneMore(kept, slot, i, level);
        rmc := rmc[slot + i := ManaCost.NextLevel(config, ManaCost.At(rmc, slot - 1), traffic)];
        i := i + 1;
      }
      ManaCost.FillCovers(before, slot, ManaCost.At(before, slot - 1), config.rmcPeriodUpdate, level);
    }

    // ----- the accepted tangle time -----

    /** The accepted tangle time never runs backwards. */
    method AddToAcceptedSlot(message: Message)
      requires Valid()
      modifies this`acceptedSlotDB, this`ATT
      ensures Valid() && ATT == if message.issuanceTime > old(ATT) then message.issuanceTime else old(ATT)
      ensures var slot := SlotIndex(config, genesisTime, message.issuanceTime);
        acceptedSlotDB == old(acceptedSlotDB)[slot := InSlot(old(acceptedSlotDB), slot) + {message.id}]
    {
      hide ValidMetadata, ChildrenIndexed, SlotsIndexed, SlotMap, Dag.WellFormed, Priced;
      var slotIndex := SlotIndex(config, genesisTime, message.issuanceTime);
      if slotIndex !in acceptedSlotDB {
        acceptedSlotDB := acceptedSlotDB[slotIndex := {}];
      }
      acceptedSlotDB := acceptedSlotDB[slotIndex := acceptedSlotDB[slotIndex] + {message.id}];
      if message.issuanceTime > ATT {
        ATT := message.issuanceTime;
      }
    }

    // ----- readiness -----

    predicate IsReady(id: MessageID)
      requires Valid() && id in messageDB
      requires view[id].solid ==> Dag.ParentsIn(messageDB, id, messageDB.Keys)
      reads this, footprint
      ensures IsReady(id) <==> view[id].solid && ParentsEligible(messageDB, view, config.confEligible, id)
    {
      && metadataDB[id].solid
      && (forall p | p in messageDB[id].strongParents ::
           p == GENESIS || metadataDB[p].Value().Eligible(config.confEligible))
      && (forall p | p in messageDB[id].weakParents ::
           p == GENESIS || metadataDB[p].Value().Eligible(config.confEligible))
    }

    // ----- recording facts about a stored message -----

    function MetadataOf(id: MessageID): (r: Record)
      requires Valid() && id in messageDB
      reads this, footprint
      ensures r == view[id]
    {
      metadataDB[id].Value()
    }

    lemma OwnMetadata(id: MessageID)
      requires Valid() && id in messageDB
      ensures id in metadataDB && id in view && metadataDB[id].Value() == view[id] && this !in footprint
      ensures metadataDB[id] in footprint && metadataDB[id].weightSlice in footprint
      ensures metadataDB[id].weightSlice.Length == SliceLength(config.nodesCount)
      ensures forall x :: x in metadataDB && x != id ==>
        metadataDB[x] != metadataDB[id] && metadataDB[x].weightSlice != metadataDB[id].weightSlice
    {
      hide ChildrenIndexed, SlotsIndexed, SlotMap, Dag.WellFormed, Priced;
    }

    /** Only the metadata of one message changed. */
    twostate predicate OthersUnchanged(id: MessageID)
      reads this, metadataDB.Values, set x | x in metadataDB :: metadataDB[x].weightSlice
    {
      && unchanged(`messageDB) && unchanged(`metadataDB) && unchanged(`footprint) && unchanged(`rmc)
      && unchanged(`strongChildrenDB) && unchanged(`weakChildrenDB) && unchanged(`slotDB) && unchanged(`touches)
      && id in metadataDB && view == old(view)[id := metadataDB[id].Value()]
      && forall x :: x in metadataDB && x != id ==> metadataDB[x].Value() == old(metadataDB[x].Value())
    }

    twostate lemma MetadataChanged(id: MessageID)
      requires old(ValidMetadata()) && OthersUnchanged(id)
      requires metadataDB[id].weightSlice.Length == SliceLength(config.nodesCount)
      ensures ValidMetadata()
    {
    }

    /** A change of the metadata of one message, shown in `view`, leaves everything else in order. */
    twostate lemma OneChanged(id: MessageID)
      requires old(Valid()) && OthersUnchanged(id)
      ensures Valid()
    {
      hide ChildrenIndexed, SlotsIndexed, SlotMap, Dag.WellFormed, ManaCost.Run;
      assert metadataDB[id].weightSlice.Length == SliceLength(config.nodesCount);
      MetadataChanged(id);
      hide ValidMetadata, OthersUnchanged;
    }

    method SetSolid(id: MessageID) returns (modified: bool)
      requires Valid() && id in messageDB
      modifies this`view, footprint
      ensures Valid() && modified == !old(view)[id].solid
      ensures view == old(view)[id := old(view)[id].(solid := true)]
    {
      hide Storage.Valid;
      OwnMetadata(id);
      modified := metadataDB[id].SetSolid(true);
      view := view[id := metadataDB[id].Value()];
      OneChanged(id);
    }

    method SetReady(id: MessageID)
      requires Valid() && id in messageDB
      modifies this`view, footprint
      ensures Valid() && view == old(view)[id := old(view)[id].(ready := true)]
    {
      hide Storage.Valid;
      OwnMetadata(id);
      metadataDB[id].ready := true;
      view := view[id := metadataDB[id].Value()];
      OneChanged(id);
    }

    method SetInheritedColor(id: MessageID, color: Color)
      requires Valid() && id in messageDB
      modifies this`view, footprint
      ensures Valid() && view == old(view)[id := old(view)[id].(inheritedColor := color)]
    {
      hide Storage.Valid;
      OwnMetadata(id);
      var _ := metadataDB[id].SetInheritedColor(color);
      view := view[id := metadataDB[id].Value()];
      OneChanged(id);
    }

    method SetScheduled(id: MessageID)
      requires Valid() && id in messageDB
      modifies this`view, footprint
      ensures Valid() && view == old(view)[id := old(view)[id].(scheduled := true)]
    {
      hide Storage.Valid;
      OwnMetadata(id);
      metadataDB[id].scheduled := true;
      view := view[id := metadataDB[id].Value()];
      OneChanged(id);
    }

    method SetConfirmed(id: MessageID)
      requires Valid() && id in messageDB
      modifies this`view, footprint
      ensures Valid() && view == old(view)[id := old(view)[id].(confirmed := true)]
    {
      hide Storage.Valid;
      OwnMetadata(id);
      metadataDB[id].confirmed := true;
      view := view[id := metadataDB[id].Value()];
      OneChanged(id);
    }

    method SetOrphaned(id: MessageID)
      requires Valid() && id in messageDB
      modifies this`view, footprint
      ensures Valid() && view == old(view)[id := old(view)[id].(orphaned := true)]
    {
      hide Storage.Valid;
      OwnMetadata(id);
      metadataDB[id].orphaned := true;
      view := view[id := metadataDB[id].Value()];
      OneChanged(id);
    }

    method SetWeightByte(id: MessageID, index: nat, b: bv8)
      requires Valid() && id in messageDB && index < SliceLength(config.nodesCount)
      modifies this`view, footprint
      ensures Valid()
      ensures view == old(view)[id := old(view)[id].(weightSlice := old(view)[id].weightSlice[index := b])]
    {
      hide Storage.Valid;
      OwnMetadata(id);
      metadataDB[id].SetWeightByte(index, b);
      view := view[id := metadataDB[id].Value()];
      OneChanged(id);
    }

    method AddWeight(id: MessageID, weight: nat)
      requires Valid() && id in messageDB
      modifies this`view, footprint
      ensures Valid() && view == old(view)[id := old(view)[id].(weight := old(view)[id].weight + weight)]
    {
      hide Storage.Valid;
      OwnMetadata(id);
      metadataDB[id].weight := metadataDB[id].weight + weight;
      view := view[id := metadataDB[id].Value()];
      OneChanged(id);
    }
  }
}
