/** Runs of two nodes side by side: what order decides, and what it does not. */
module Runs {
  import opened Messages
  import opened Parameters
  import opened PeerWeights
  import opened Pipeline
  import opened Tangle
  import Buffers
  import Convergence
  import Dag
  import Listing
  import ManaCost
  import Metadata
  import Schedule
  import Solidifier
  import Storage
  import Voting

  /** The messages delivered by some inputs. */
  ghost function Delivered(inputs: seq<Input>): set<Message> {
    set i | 0 <= i < |inputs| && inputs[i].Deliver? :: inputs[i].message
  }

  lemma DeliveredIff(inputs: seq<Input>, m: Message)
    ensures m in Delivered(inputs) <==> Deliver(m) in inputs
  {
  }

  /** The messages that a node issued itself. */
  ghost function Own(t: Tangle): set<Message>
    reads t`created
  {
    set i | 0 <= i < |t.created| :: t.created[i]
  }

  /** Every message burns the highest price of its slot. */
  ghost predicate Paid(config: Config, genesisTime: Time, ms: set<Message>)
    requires config.Sensible()
  {
    forall m :: m in ms ==> m.manaBurnValue >= HighestPrice(config, genesisTime, m)
  }

  /** Identities are unique, and so are the numbers of each issuer. */
  ghost predicate Distinct(ms: set<Message>) {
    && (forall m, m' :: m in ms && m' in ms && m.id == m'.id ==> m == m')
    && forall m, m' :: m in ms && m' in ms && m.issuer == m'.issuer && m.sequenceNumber == m'.sequenceNumber ==> m == m'
  }

  /** Exactly these messages are stored. */
  ghost predicate Holds(db: Dag.Ledger, ms: set<Message>) {
    && (forall id :: id in db ==> db[id].id == id && db[id] in ms)
    && forall m :: m in ms ==> m.id in db
  }

  lemma SameLedger(db: Dag.Ledger, db': Dag.Ledger, ms: set<Message>)
    requires Holds(db, ms) && Holds(db', ms) && Distinct(ms)
    ensures db == db' && Voting.Numbered(db)
  {
    forall id
      ensures id in db <==> id in db'
      ensures id in db && id in db' ==> db[id] == db'[id]
    {
    }
  }

  lemma StoredAreKnown(
    config: Config, genesisTime: Time, db: Dag.Ledger, inputs: seq<Input>, created: seq<Message>, own: set<Message>)
    requires config.Sensible() && Dag.WellFormed(db) && StoredFrom(map[], db, inputs, created)
    requires PaidAreStored(config, genesisTime, db, inputs) && Paid(config, genesisTime, Delivered(inputs))
    requires own == set i | 0 <= i < |created| :: created[i]
    ensures Holds(db, Delivered(inputs) + own)
  {
    hide HighestPrice;
    forall id | id in db
      ensures db[id] in Delivered(inputs) + own
    {
      DeliveredIff(inputs, db[id]);
    }
    forall m | m in Delivered(inputs) + own
      ensures m.id in db
    {
      DeliveredIff(inputs, m);
    }
  }

  /** A node that was just set up works off some inputs: it stores what was delivered and what it issued itself. */
  method NewRun(
    config: Config, peer: PeerID, spamming: bool, genesisTime: Time, quanta: seq<real>,
    distribution: ConsensusWeightDistribution, inputs: seq<Input>) returns (t: Tangle)
    requires Suitable(config, quanta, distribution) && 0 <= peer < config.nodesCount
    requires forall i :: 0 <= i < |inputs| ==> Fit(config, inputs[i])
    requires Paid(config, genesisTime, Delivered(inputs))
    ensures fresh(t) && t.Quiescent() && t.config == config && t.opinions.weights == distribution.weights
    ensures Holds(t.storage.messageDB, Delivered(inputs) + Own(t))
    ensures fresh(t.storage) && fresh(t.storage.footprint) && fresh(t.requester) && fresh(t.opinions)
    ensures fresh(t.scheduler) && fresh(t.booker) && fresh(t.approvalManager) && fresh(t.solidifier)
  {
    hide Holds, StoredFrom, PaidAreStored, Delivered, Paid, Solidifier.Continues, Tangle.Quiescent, Fit;
    t := new Tangle(config, peer, spamming, genesisTime, quanta, distribution);
    t.ProcessMessages(inputs);
    assert t.created[0..] == t.created;
    StoredIsWellFormed(t);
    StoredAreKnown(config, genesisTime, t.storage.messageDB, inputs, t.created, Own(t));
  }

  lemma StoredIsWellFormed(t: Tangle)
    requires t.Quiescent()
    ensures Dag.WellFormed(t.storage.messageDB)
  {
    t.SchedulerInOrder();
    t.scheduler.StorageInOrder({});
  }

  /**
   Two nodes that have the same messages, in whatever order, delivered or issued, and with any other inputs between,
   end up with the same messages stored, and so agree. Whoever delivers pays the highest price of the slot.
   */
  method TwoRuns(
    config: Config, genesisTime: Time, distribution: ConsensusWeightDistribution,
    peer: PeerID, spamming: bool, quanta: seq<real>, inputs: seq<Input>,
    peer': PeerID, spamming': bool, quanta': seq<real>, inputs': seq<Input>) returns (a: Tangle, b: Tangle)
    requires Suitable(config, quanta, distribution) && Suitable(config, quanta', distribution)
    requires 0 <= peer < config.nodesCount && 0 <= peer' < config.nodesCount
    requires forall i :: 0 <= i < |inputs| ==> Fit(config, inputs[i])
    requires forall i :: 0 <= i < |inputs'| ==> Fit(config, inputs'[i])
    requires Paid(config, genesisTime, Delivered(inputs)) && Paid(config, genesisTime, Delivered(inputs'))
    ensures a.Quiescent() && b.Quiescent()
    ensures Holds(a.storage.messageDB, Delivered(inputs) + Own(a))
    ensures Holds(b.storage.messageDB, Delivered(inputs') + Own(b))
    ensures Delivered(inputs) + Own(a) == Delivered(inputs') + Own(b) && Distinct(Delivered(inputs) + Own(a)) ==>
      && a.storage.messageDB == b.storage.messageDB
      && Convergence.Agree(config.nodesCount, a.Snapshot(), b.Snapshot())
      && (Listing.Weighty(distribution.weights, config.nodesCount, a.storage.messageDB,
                          Dag.SolidSet(a.storage.messageDB))
           || Listing.Determined(a.storage.messageDB, Dag.SolidSet(a.storage.messageDB))
         ==> a.opinions.ownOpinion == b.opinions.ownOpinion)
  {
    hide Holds, Delivered, Own, Paid, Distinct, Fit, Tangle.Quiescent, Convergence.Agree, Listing.Weighty,
      Listing.Determined;
    a := NewRun(config, peer, spamming, genesisTime, quanta, distribution, inputs);
    b := NewRun(config, peer', spamming', genesisTime, quanta', distribution, inputs');
    ghost var ms := Delivered(inputs) + Own(a);
    if ms == Delivered(inputs') + Own(b) && Distinct(ms) {
      SameLedger(a.storage.messageDB, b.storage.messageDB, ms);
      NodesAgree(a, b);
    }
  }

  // ----- delivery in a given order -----

  ghost function First(db: Dag.Ledger, log: seq<MessageID>, i: nat): Dag.Ledger
    requires i <= |log| && forall id :: id in log ==> id in db
  {
    map id | id in Listing.IDs(log[..i]) :: db[id]
  }

  lemma OneMore(log: seq<MessageID>, log': seq<MessageID>, x: MessageID)
    requires log <= log' && Once(log') && x !in log && forall id :: id in log' <==> id in log || id == x
    ensures log' == log + [x]
  {
    var rest := log'[|log|..];
    assert log' == log + rest;
    forall i | 0 <= i < |rest|
      ensures rest[i] == x
    {
      assert log'[|log| + i] in log';
    }
    assert x in log';
    if |rest| > 1 {
      Differ(log', |log|, |log| + 1);
      assert false;
    }
  }

  lemma Differ(log: seq<MessageID>, i: nat, j: nat)
    requires Once(log) && i < j < |log|
    ensures log[i] != log[j]
  {
  }

  lemma FirstAreSolid(db: Dag.Ledger, log: seq<MessageID>, i: nat)
    requires Dag.WellFormed(db) && ParentsFirst(db, log) && i <= |log| && forall id :: id in log ==> id in db
    ensures Dag.SolidSet(First(db, log, i)) == Listing.IDs(log[..i])
  {
    var part := First(db, log, i);
    forall id, p | id in part && p in part[id].Parents() && p != GENESIS
      ensures p in part
    {
      var j :| 0 <= j < i && log[j] == id;
      assert After(db, log, j);
      assert log[..j] <= log[..i];
    }
    assert part.Keys == Listing.IDs(log[..i]);
    assert Dag.Closed(part, part.Keys);
    Dag.ClosedAndCompleteIsSolidSet(part, part.Keys);
  }

  lemma FirstGrows(db: Dag.Ledger, log: seq<MessageID>, i: nat)
    requires Dag.WellFormed(db) && Once(log) && i < |log| && forall id :: id in log ==> id in db
    ensures log[i] !in First(db, log, i) && log[..i + 1] == log[..i] + [log[i]] && log[i] !in log[..i]
    ensures First(db, log, i + 1) == First(db, log, i)[log[i] := db[log[i]]] && db[log[i]].id == log[i]
  {
    assert log[i] in log;
    assert Listing.IDs(log[..i + 1]) == Listing.IDs(log[..i]) + {log[i]};
  }

  /** After one more delivery the message was announced, and nothing else. */
  lemma OneMoreAnnounced(t: Tangle, db: Dag.Ledger, log: seq<MessageID>, i: nat)
    requires t.Quiescent() && Dag.WellFormed(db) && Once(log) && ParentsFirst(db, log) && i < |log|
    requires (forall id :: id in log ==> id in db) && t.storage.messageDB == First(db, log, i + 1)
    requires log[..i] <= t.solidifier.solidLog
    ensures t.solidifier.solidLog == log[..i + 1]
  {
    hide Tangle.Quiescent, First;
    t.EventsAreExact();
    FirstAreSolid(db, log, i + 1);
    FirstGrows(db, log, i);
    OneMore(log[..i], t.solidifier.solidLog, log[i]);
  }

  ghost predicate AllPaid(config: Config, genesisTime: Time, db: Dag.Ledger)
    requires config.Sensible()
  {
    forall id :: id in db ==> Sound(config, db[id]) && db[id].manaBurnValue >= HighestPrice(config, genesisTime, db[id])
  }

  lemma PaidOne(config: Config, genesisTime: Time, db: Dag.Ledger, id: MessageID)
    requires config.Sensible() && AllPaid(config, genesisTime, db) && id in db
    ensures Sound(config, db[id]) && db[id].manaBurnValue >= HighestPrice(config, genesisTime, db[id])
  {
  }

  /** Every order in which messages can be booked comes about: when they are delivered in it. */
  method Replay(
    config: Config, genesisTime: Time, distribution: ConsensusWeightDistribution,
    peer: PeerID, spamming: bool, quanta: seq<real>, db: Dag.Ledger, log: seq<MessageID>) returns (t: Tangle)
    requires Suitable(config, quanta, distribution) && 0 <= peer < config.nodesCount
    requires Dag.WellFormed(db) && Listing.Order(db, db.Keys, log)
    requires AllPaid(config, genesisTime, db)
    ensures fresh(t) && t.Quiescent() && t.config == config && t.opinions.weights == distribution.weights
    ensures t.storage.messageDB == db && Dag.SolidSet(db) == db.Keys && t.solidifier.solidLog == log
    ensures t.scheduler.served == {} && t.scheduler.peer == peer && t.scheduler.spamming == spamming
    ensures Buffers.Flows(config.maxBuffer, Buffers.Flow({}, {}), t.scheduler.Flow())
    ensures t.opinions.ownOpinion == Listing.OpinionAfter(distribution.weights, config.nodesCount, db, log)
    ensures fresh(t.storage) && fresh(t.storage.footprint) && fresh(t.requester) && fresh(t.opinions)
    ensures fresh(t.scheduler) && fresh(t.booker) && fresh(t.approvalManager) && fresh(t.solidifier)
  {
    hide Tangle.Quiescent, First, Once, ParentsFirst, Sound, AllPaid, Dag.WellFormed, Buffers.Flows;
    t := new Tangle(config, peer, spamming, genesisTime, quanta, distribution);
    NothingFirst(db, log);
    Buffers.FlowsWithin(config.maxBuffer, t.scheduler.Flow(), t.scheduler.Flow());
    for i := 0 to |log|
      invariant t.Quiescent() && t.storage.messageDB == First(db, log, i) && t.solidifier.solidLog == log[..i]
      invariant t.scheduler.served == {}
      invariant Buffers.Flows(config.maxBuffer, Buffers.Flow({}, {}), t.scheduler.Flow())
      invariant fresh(t.storage.footprint)
    {
      assert log[i] in log && log[i] in db;
      ghost var flow := t.scheduler.Flow();
      ProcessNext(t, db, log, i);
      Buffers.FlowsOn(config.maxBuffer, Buffers.Flow({}, {}), flow, t.scheduler.Flow());
    }
    assert log[..|log|] == log;
    AllFirst(db, log);
    FirstAreSolid(db, log, |log|);
    t.EventsAreExact();
    t.RecordsAreExact();
    Convergence.OwnOpinion(t.opinions.weights, config.nodesCount, t.Snapshot());
  }

  lemma NothingFirst(db: Dag.Ledger, log: seq<MessageID>)
    requires forall id :: id in log ==> id in db
    ensures First(db, log, 0) == map[] && log[..0] == []
  {
  }

  lemma AllFirst(db: Dag.Ledger, log: seq<MessageID>)
    requires forall id :: id in log <==> id in db
    ensures First(db, log, |log|) == db
  {
    assert log[..|log|] == log;
    forall id
      ensures id in Listing.IDs(log) <==> id in db
    {
    }
  }

  method ProcessNext(t: Tangle, db: Dag.Ledger, log: seq<MessageID>, i: nat)
    requires t.Quiescent() && i < |log| && t.config.Sensible() && Dag.WellFormed(db)
    requires Listing.Order(db, db.Keys, log) && t.storage.messageDB == First(db, log, i)
    requires t.solidifier.solidLog == log[..i]
    requires AllPaid(t.config, t.storage.genesisTime, db) && log[i] in db
    modifies t.storage, t.storage.footprint, t.requester, t.opinions, t.scheduler, t.booker, t.approvalManager
    modifies t.solidifier
    ensures t.Quiescent() && t.storage.messageDB == First(db, log, i + 1) && t.solidifier.solidLog == log[..i + 1]
    ensures t.scheduler.served == old(t.scheduler.served)
    ensures Buffers.Flows(t.config.maxBuffer, old(t.scheduler.Flow()), t.scheduler.Flow())
    ensures fresh(t.storage.footprint - old(t.storage.footprint))
  {
    hide Tangle.Quiescent, First, Once, ParentsFirst, Sound, AllPaid, Dag.WellFormed, Buffers.Flows, HighestPrice,
      Tangle.Affordable;
    PaidOne(t.config, t.storage.genesisTime, db, log[i]);
    FirstGrows(db, log, i);
    t.ProcessPaid(db[log[i]]);
    OneMoreAnnounced(t, db, log, i);
  }

  /**
   Any two orders come about in two nodes with the same messages, and so do their opinions. Two orders with different
   opinions exist whenever nobody with weight has voted and the messages do not determine the smallest colour.
   */
  method TwoReplays(
    config: Config, genesisTime: Time, distribution: ConsensusWeightDistribution,
    peer: PeerID, peer': PeerID, quanta: seq<real>, db: Dag.Ledger, log: seq<MessageID>, log': seq<MessageID>)
    returns (a: Tangle, b: Tangle)
    requires Suitable(config, quanta, distribution)
    requires 0 <= peer < config.nodesCount && 0 <= peer' < config.nodesCount
    requires Dag.WellFormed(db) && Listing.Order(db, db.Keys, log) && Listing.Order(db, db.Keys, log')
    requires AllPaid(config, genesisTime, db)
    ensures a.Quiescent() && b.Quiescent() && a.storage.messageDB == b.storage.messageDB == db
    ensures a.opinions.ownOpinion == Listing.OpinionAfter(distribution.weights, config.nodesCount, db, log)
    ensures b.opinions.ownOpinion == Listing.OpinionAfter(distribution.weights, config.nodesCount, db, log')
    ensures Voting.Numbered(db)
         && (Listing.Weighty(distribution.weights, config.nodesCount, db, db.Keys) || Listing.Determined(db, db.Keys))
       ==> a.opinions.ownOpinion == b.opinions.ownOpinion
  {
    hide Tangle.Quiescent, AllPaid, Listing.Order, Listing.OpinionAfter, Listing.Weighty,
      Listing.Determined, Voting.Numbered, Dag.WellFormed;
    a := Replay(config, genesisTime, distribution, peer, false, quanta, db, log);
    b := Replay(config, genesisTime, distribution, peer', false, quanta, db, log');
    if Voting.Numbered(db) {
      Dag.SolidSetIsClosed(db);
      Listing.OpinionDeterminedIff(distribution.weights, config.nodesCount, db, db.Keys);
    }
  }

  /** The failing input: a peer without weight changes its colour from 1 to 2, and two nodes keep different opinions. */
  method ChangeOfColor(
    config: Config, genesisTime: Time, distribution: ConsensusWeightDistribution, quanta: seq<real>, issuer: PeerID)
    returns (a: Tangle, b: Tangle)
    requires Suitable(config, quanta, distribution)
    requires 0 <= issuer < config.nodesCount && WeightOf(distribution.weights, issuer) == 0
    ensures a.Quiescent() && b.Quiescent() && a.storage.messageDB == b.storage.messageDB
    ensures a.opinions.weights == b.opinions.weights == distribution.weights
    ensures a.opinions.ownOpinion == 1 && b.opinions.ownOpinion == 2
  {
    hide Tangle.Quiescent, Listing.OpinionAfter, AllPaid;
    var db := TwoColors(config, genesisTime, issuer);
    Listing.ChangeOfColor(distribution.weights, config.nodesCount, db, 1, 2, 1, 2);
    hide Listing.Order;
    a := Replay(config, genesisTime, distribution, issuer, false, quanta, db, [1, 2]);
    b := Replay(config, genesisTime, distribution, issuer, false, quanta, db, [2, 1]);
  }

  method TwoColors(config: Config, genesisTime: Time, issuer: PeerID) returns (db: Dag.Ledger)
    requires config.Sensible() && 0 <= issuer < config.nodesCount
    ensures db.Keys == {1, 2} && Dag.WellFormed(db) && AllPaid(config, genesisTime, db)
    ensures forall id :: id in db ==>
      && db[id].strongParents == {GENESIS} && db[id].weakParents == {} && !db[id].validation
      && db[id].issuer == issuer && db[id].payload == id && db[id].sequenceNumber == id
  {
    hide ManaCost.Highest;
    var price := ManaCost.Highest(config, Storage.SlotIndex(config, genesisTime, genesisTime));
    db := map[1 := Message(false, 1, {GENESIS}, {}, 1, issuer, 1, genesisTime, price),
              2 := Message(false, 2, {GENESIS}, {}, 2, issuer, 2, genesisTime, price)];
    assert db.Keys == {1, 2};
  }

  /**
   A validation block overtakes its parent: it is scheduled as soon as it is booked, and the parent waits for a tick.
   */
  method ValidationOvertakes(
    config: Config, genesisTime: Time, distribution: ConsensusWeightDistribution, quanta: seq<real>, issuer: PeerID)
    returns (t: Tangle)
    requires Suitable(config, quanta, distribution) && !config.confEligible
    requires 0 <= issuer < config.nodesCount
    ensures t.Quiescent() && t.storage.messageDB.Keys == {1, 2} && t.storage.messageDB[2].strongParents == {1}
    ensures t.storage.view[2].scheduled && !t.storage.view[1].scheduled
    ensures !Storage.ParentsEligible(t.storage.messageDB, t.storage.view, config.confEligible, 2)
  {
    hide Tangle.Quiescent, Listing.OpinionAfter, Listing.Order, Dag.Bookable, Schedule.Times,
      Storage.ParentsEligible;
    var price := ManaCost.Highest(config, Storage.SlotIndex(config, genesisTime, genesisTime));
    var x := Message(false, 1, {GENESIS}, {}, 1, issuer, UNDEFINED, genesisTime, price);
    var y := Message(true, 2, {1}, {}, 2, issuer, UNDEFINED, genesisTime, price);
    var db := map[1 := x, 2 := y];
    assert db.Keys == {1, 2};
    ParentAndChild(db);
    t := Replay(config, genesisTime, distribution, issuer, false, quanta, db, [1, 2]);
    t.SchedulingIsExact(1);
    t.SchedulingIsExact(2);
    t.SchedulerInOrder();
    t.scheduler.Recorded(1, {});
    Waits(db, t.storage.view, config.confEligible);
  }

  lemma {:induction false} ParentAndChild(db: Dag.Ledger)
    requires db.Keys == {1, 2} && Dag.WellFormed(db) && db[1].Parents() == {GENESIS} && db[2].Parents() == {1}
    requires db[1].payload == UNDEFINED == db[2].payload
    ensures Listing.Order(db, db.Keys, [1, 2]) && Dag.Bookable(db, 2)
  {
    assert After(db, [1, 2], 0) && After(db, [1, 2], 1);
    assert db[1].strongParents <= db[1].Parents() && db[2].strongParents <= db[2].Parents();
    assert Dag.Palette(db, 1) == {};
    assert Dag.Palette(db, 2) == {};
  }

  lemma Waits(db: Dag.Ledger, view: map<MessageID, Metadata.Record>, confEligible: bool)
    requires 2 in db && 1 in db[2].Parents() && 1 in view && !view[1].Eligible(confEligible)
    ensures !Storage.ParentsEligible(db, view, confEligible, 2)
  {
  }

  /** As long as not more messages ceased to wait than fit, none is dropped. */
  lemma {:induction false} NothingDropped(t: Tangle)
    requires t.Quiescent() && t.config.maxBuffer >= |t.scheduler.Left()|
    requires Buffers.Flows(t.config.maxBuffer, Buffers.Flow({}, {}), t.scheduler.Flow())
    ensures t.scheduler.popped == {} && t.scheduler.readyLen == |t.scheduler.Left()|
    ensures t.scheduler.Left() != {} ==> t.scheduler.Backlog() != {}
  {
    hide Tangle.Quiescent, IccaScheduler.ICCAScheduler.Valid;
    t.SchedulerInOrder();
    t.scheduler.EveryoneIsSomewhere();
    t.scheduler.BacklogIffLength();
  }

  /** A validation block is scheduled twice: as soon as it is booked, and by the tick that takes it out of its queue. */
  method ScheduledTwice(
    config: Config, genesisTime: Time, distribution: ConsensusWeightDistribution, quanta: seq<real>, issuer: PeerID)
    returns (t: Tangle)
    requires Suitable(config, quanta, distribution) && 0 <= issuer < config.nodesCount && 1 <= config.maxBuffer
    ensures t.Quiescent() && t.storage.messageDB.Keys == {1} && multiset(t.scheduler.scheduledLog)[1] == 2
  {
    hide Tangle.Quiescent, Listing.OpinionAfter, Listing.Order, Dag.Bookable, Dag.SolidSet, Storage.ParentsEligible,
      Buffers.Flows, IccaScheduler.ICCAScheduler.Left, IccaScheduler.ICCAScheduler.Backlog, Schedule.Ripe,
      Schedule.Waited, AllPaid;
    var db := OneValidation(config, genesisTime, issuer);
    OneMessage(db);
    t := Replay(config, genesisTime, distribution, issuer, false, quanta, db, [1]);
    OneIsQueued(t);
    t.OneConfig();
    ghost var turn, m := t.ScheduleMessage();
    ghost var log := t.scheduler.scheduledLog;
    t.ScheduledAfterParents(|log| - 1);
    assert m.id == 1;
    t.EnqueuedOrInvalid(1);
    t.SchedulingIsExact(1);
  }

  method OneValidation(config: Config, genesisTime: Time, issuer: PeerID) returns (db: Dag.Ledger)
    requires config.Sensible() && 0 <= issuer < config.nodesCount
    ensures db.Keys == {1} && Dag.WellFormed(db) && AllPaid(config, genesisTime, db)
    ensures db[1].validation && db[1].Parents() == {GENESIS} && db[1].payload == UNDEFINED && db[1].id == 1
  {
    hide ManaCost.Highest;
    var price := ManaCost.Highest(config, Storage.SlotIndex(config, genesisTime, genesisTime));
    db := map[1 := Message(true, 1, {GENESIS}, {}, 1, issuer, UNDEFINED, genesisTime, price)];
    assert db.Keys == {1};
  }

  lemma {:induction false} OneMessage(db: Dag.Ledger)
    requires db.Keys == {1} && db[1].Parents() == {GENESIS} && db[1].payload == UNDEFINED && db[1].id == 1
    ensures Listing.Order(db, db.Keys, [1]) && Dag.Bookable(db, 1)
  {
    assert After(db, [1], 0);
    assert db[1].strongParents <= db[1].Parents();
    assert Dag.Palette(db, 1) == {};
  }

  /** The message is all that was enqueued. */
  lemma {:induction false} OneIsQueued(t: Tangle)
    requires t.Quiescent() && t.storage.messageDB.Keys == {1} && t.config.maxBuffer >= 1
    requires t.storage.messageDB[1].Parents() == {GENESIS} && Dag.Bookable(t.storage.messageDB, 1)
    requires 1 in Dag.SolidSet(t.storage.messageDB)
    requires Buffers.Flows(t.config.maxBuffer, Buffers.Flow({}, {}), t.scheduler.Flow())
    ensures t.scheduler.Backlog() != {}
  {
    hide Tangle.Quiescent, Dag.Bookable, Buffers.Flows, IccaScheduler.ICCAScheduler.Backlog, Dag.Solid;
    t.EnqueuedOrInvalid(1);
    t.EveryMessageResides(1);
    forall x | x in t.scheduler.enqueued
      ensures x == 1
    {
      t.EnqueuedOrInvalid(x);
    }
    assert t.scheduler.Left() == {1};
    NothingDropped(t);
  }

  /** Two messages with the same parent. */
  ghost predicate Siblings(db: Dag.Ledger) {
    && db.Keys == {1, 2, 3} && Dag.WellFormed(db)
    && db[1].Parents() == {GENESIS} && db[2].Parents() == {1} && db[3].Parents() == {1}
    && forall id :: id in db ==> !db[id].validation && db[id].payload == UNDEFINED
  }

  lemma {:induction false} SiblingsInOrder(db: Dag.Ledger)
    requires Siblings(db)
    ensures Listing.Order(db, db.Keys, [1, 2, 3]) && db.Keys == {1, 2, 3} && Dag.WellFormed(db)
    ensures Dag.Bookable(db, 1) && Dag.Bookable(db, 2) && Dag.Bookable(db, 3)
  {
    var log := [1, 2, 3];
    assert After(db, log, 0) && After(db, log, 1) && After(db, log, 2);
    forall id | id in db
      ensures db[id].strongParents <= db[id].Parents()
    {
    }
    assert Dag.Palette(db, 1) == {};
    assert Dag.Palette(db, 2) == {};
    assert Dag.Palette(db, 3) == {};
  }

  lemma SiblingsWait(db: Dag.Ledger, view: Buffers.View, confEligible: bool)
    requires Siblings(db) && 1 in view
    ensures Storage.ParentsEligible(db, view, confEligible, 1)
    ensures forall id :: id == 2 || id == 3 ==>
      (Storage.ParentsEligible(db, view, confEligible, id) <==> view[1].Eligible(confEligible))
  {
  }

  /** Who of them waits, if only ticks schedule them. */
  lemma {:induction false} WhoWaits(t: Tangle)
    requires t.Quiescent() && Siblings(t.storage.messageDB) && Dag.SolidSet(t.storage.messageDB) == {1, 2, 3}
    requires !t.scheduler.spamming && !t.config.confEligible
    ensures t.scheduler.Left() == if 1 in t.scheduler.served then {1, 2, 3} else {1}
    ensures t.scheduler.popped <= t.scheduler.Left()
  {
    hide Tangle.Quiescent, Tangle.Accounts, Dag.Bookable, Dag.SolidSet, Siblings, IccaScheduler.ICCAScheduler.Valid;
    SiblingsInOrder(t.storage.messageDB);
    t.SchedulerInOrder();
    forall id
      ensures id in t.scheduler.enqueued <==> id in {1, 2, 3}
    {
      t.EnqueuedOrInvalid(id);
    }
    Waiting(t, 1);
    Waiting(t, 2);
    Waiting(t, 3);
    t.scheduler.EveryoneIsSomewhere();
  }

  lemma {:induction false} Waiting(t: Tangle, id: MessageID)
    requires t.Quiescent() && Siblings(t.storage.messageDB) && Dag.SolidSet(t.storage.messageDB) == {1, 2, 3}
    requires !t.scheduler.spamming && !t.config.confEligible && id in {1, 2, 3}
    ensures id in t.scheduler.nonReadyMap <==> id != 1 && 1 !in t.scheduler.served
  {
    hide Tangle.Quiescent, Tangle.Accounts, Dag.Bookable, Dag.SolidSet, Storage.ParentsEligible, Schedule.Times,
      Siblings, Dag.WellFormed, Buffers.InQueue, IccaScheduler.ICCAScheduler.Valid;
    var db := t.storage.messageDB;
    SiblingsInOrder(db);
    t.SchedulerInOrder();
    t.scheduler.Recorded(1, {});
    SiblingsWait(db, t.storage.view, t.config.confEligible);
    NotValidated(db, 1);
    t.SchedulingIsExact(1);
    t.EveryMessageResides(id);
  }

  lemma NotValidated(db: Dag.Ledger, id: MessageID)
    requires Siblings(db) && id in db
    ensures !db[id].validation
  {
  }

  method ThreeMessages(config: Config, genesisTime: Time, issuer: PeerID) returns (db: Dag.Ledger)
    requires config.Sensible() && 0 <= issuer < config.nodesCount
    ensures Siblings(db) && AllPaid(config, genesisTime, db)
  {
    hide ManaCost.Highest;
    var price := ManaCost.Highest(config, Storage.SlotIndex(config, genesisTime, genesisTime));
    db := map[1 := Message(false, 1, {GENESIS}, {}, 1, issuer, UNDEFINED, genesisTime, price),
              2 := Message(false, 2, {1}, {}, 2, issuer, UNDEFINED, genesisTime, price),
              3 := Message(false, 3, {1}, {}, 3, issuer, UNDEFINED, genesisTime, price)];
    assert db.Keys == {1, 2, 3};
  }

  lemma {:induction false} LengthAfterwards(t: Tangle, id: MessageID)
    requires t.Quiescent() && t.scheduler.popped == {id} == t.scheduler.served
    requires t.scheduler.Left() == if 1 in t.scheduler.served then {1, 2, 3} else {1}
    ensures t.scheduler.readyLen == 2
  {
    hide Tangle.Quiescent, IccaScheduler.ICCAScheduler.Valid, IccaScheduler.ICCAScheduler.Left;
    t.SchedulerInOrder();
    t.scheduler.EveryoneIsSomewhere();
  }

  /** The buffer overflows: it holds one message, and a tick wakes up two. */
  method Overflow(
    config: Config, genesisTime: Time, distribution: ConsensusWeightDistribution, quanta: seq<real>, issuer: PeerID)
    returns (t: Tangle)
    requires Suitable(config, quanta, distribution) && 0 <= issuer < config.nodesCount
    requires config.maxBuffer == 1 && !config.confEligible
    ensures t.Quiescent() && t.storage.messageDB.Keys == {1, 2, 3} && t.scheduler.readyLen == 2 > config.maxBuffer
  {
    hide Tangle.Quiescent, Listing.OpinionAfter, Listing.Order, Dag.Bookable, Dag.SolidSet, Buffers.Flows,
      IccaScheduler.ICCAScheduler.Left, IccaScheduler.ICCAScheduler.Backlog, IccaScheduler.ICCAScheduler.Foreseen,
      Siblings, AllPaid;
    var db := ThreeMessages(config, genesisTime, issuer);
    SiblingsInOrder(db);
    t := Replay(config, genesisTime, distribution, issuer, false, quanta, db, [1, 2, 3]);
    WhoWaits(t);
    NothingDropped(t);
    t.OneConfig();
    ghost var turn, m := t.ScheduleMessage();
    WhoWaits(t);
    LengthAfterwards(t, m.id);
  }

  // ----- what is left when the ticks have nothing to do -----

  /**
   Ticks until no queue holds a message, one for each message that leaves. Then only those wait that cannot do without a
   message that is invalid or was dropped.
   */
  method Drain(t: Tangle) returns (n: nat)
    requires t.Quiescent()
    modifies t`ticks, t`idle, t.scheduler, t.storage`view, t.storage.footprint
    ensures t.Quiescent() && t.scheduler.Backlog() == {} && t.ticks == old(t.ticks) + n
    ensures n == |t.scheduler.popped| - |old(t.scheduler.popped)| <= |t.scheduler.enqueued| - |old(t.scheduler.popped)|
    ensures t.scheduler.enqueued == old(t.scheduler.enqueued) && old(t.scheduler.popped) <= t.scheduler.popped
    ensures forall id :: id in t.scheduler.enqueued ==>
      var waits := id in t.scheduler.nonReadyMap;
      && id in t.storage.messageDB
      && waits == Buffers.Stuck(t.storage.messageDB, t.storage.view, t.config.confEligible, t.Bad(), id)
  {
    hide Tangle.Quiescent, IccaScheduler.ICCAScheduler.Valid, IccaScheduler.ICCAScheduler.Backlog, Buffers.Stuck,
      IccaScheduler.ICCAScheduler.Foreseen, IccaScheduler.ICCAScheduler.Left, Tangle.Bad, Dag.SolidSet, Dag.Bookable;
    n := 0;
    t.SchedulerInOrder();
    t.scheduler.EveryoneIsSomewhere();
    t.scheduler.BacklogIffLength();
    while t.scheduler.readyLen != 0
      invariant t.Quiescent() && t.ticks == old(t.ticks) + n
      invariant t.scheduler.readyLen == 0 <==> t.scheduler.Backlog() == {}
      invariant t.scheduler.enqueued == old(t.scheduler.enqueued) && t.scheduler.popped <= t.scheduler.enqueued
      invariant old(t.scheduler.popped) <= t.scheduler.popped
      invariant |t.scheduler.popped| == |old(t.scheduler.popped)| + n
      decreases t.scheduler.enqueued - t.scheduler.popped
    {
      t.OneConfig();
      ghost var turn, m := t.ScheduleMessage();
      n := n + 1;
      t.SchedulerInOrder();
      t.scheduler.EveryoneIsSomewhere();
      t.scheduler.BacklogIffLength();
    }
    Buffers.Fewer(t.scheduler.popped, t.scheduler.enqueued);
    forall id | id in t.scheduler.enqueued
      ensures id in t.storage.messageDB
      ensures id in t.scheduler.nonReadyMap
         <==> Buffers.Stuck(t.storage.messageDB, t.storage.view, t.config.confEligible, t.Bad(), id)
    {
      t.EnqueuedOrInvalid(id);
      t.WaitsIffStuck(id);
    }
  }

  // ----- prices -----

  /** The failing input: who is delivered the later slot first also stores a message that burns nothing. */
  method OrderDecides(
    config: Config, genesisTime: Time, distribution: ConsensusWeightDistribution, quanta: seq<real>, issuer: PeerID)
    returns (a: Tangle, b: Tangle)
    requires Suitable(config, quanta, distribution) && 0 <= issuer < config.nodesCount
    requires config.icca && 0.0 < config.initialRMC && !ManaCost.Updates(config, 1)
    ensures a.Quiescent() && a.storage.messageDB.Keys == {1}
    ensures b.Quiescent() && b.storage.messageDB.Keys == {1, 2}
  {
    hide Tangle.Quiescent;
    var x := Message(false, 1, {GENESIS}, {}, 1, issuer, UNDEFINED, genesisTime, config.initialRMC);
    var y := Message(false, 2, {GENESIS}, {}, 2, issuer, UNDEFINED,
                     genesisTime + config.slotTime * config.slowdownFactor, 0.0);
    a := TwoDeliveries(config, genesisTime, distribution, quanta, issuer, x, y);
    b := TwoDeliveries(config, genesisTime, distribution, quanta, issuer, y, x);
    InSlots(config, genesisTime);
  }

  lemma InSlots(config: Config, genesisTime: Time)
    requires config.Sensible()
    ensures Storage.SlotIndex(config, genesisTime, genesisTime) == 0
    ensures Storage.SlotIndex(config, genesisTime, genesisTime + config.slotTime * config.slowdownFactor) == 1
  {
    var length := config.slotTime * config.slowdownFactor;
    assert length > 0;
    ManaCost.Division(length, length, 1, 0);
  }

  /** Slots 0 and 1 are touched for the first time, one after the other. */
  method TwoDeliveries(
    config: Config, genesisTime: Time, distribution: ConsensusWeightDistribution, quanta: seq<real>, peer: PeerID,
    x: Message, y: Message) returns (t: Tangle)
    requires Suitable(config, quanta, distribution) && Sound(config, x) && Sound(config, y) && x.id != y.id
    requires config.icca && !ManaCost.Updates(config, 1)
    requires {Storage.SlotIndex(config, genesisTime, x.issuanceTime),
              Storage.SlotIndex(config, genesisTime, y.issuanceTime)} == {0, 1}
    ensures t.Quiescent() && t.storage.messageDB.Keys <= {x.id, y.id}
    ensures x.id in t.storage.messageDB
       <==> x.manaBurnValue
              >= if Storage.SlotIndex(config, genesisTime, x.issuanceTime) == 0 then config.initialRMC else 0.0
    ensures y.id in t.storage.messageDB <==> y.manaBurnValue >= config.initialRMC
  {
    hide Tangle.Quiescent, Storage.SlotIndex, ManaCost.Run, ManaCost.Updates, Buffers.Flows, Sound, Storage.Traffic;
    t := new Tangle(config, peer, false, genesisTime, quanta, distribution);
    var p := Storage.SlotIndex(config, genesisTime, x.issuanceTime);
    var q := Storage.SlotIndex(config, genesisTime, y.issuanceTime);
    ghost var k := Storage.Traffic(config, t.storage.slotDB, p);
    t.ProcessMessage(x);
    t.PricesAreOfTouches();
    assert t.storage.touches == [ManaCost.Stored(p, k)];
    ghost var l := Storage.Traffic(config, t.storage.slotDB, q);
    t.ProcessMessage(y);
    t.PricesAreOfTouches();
    assert t.storage.touches == [ManaCost.Stored(p, k), ManaCost.Stored(q, l)];
    TwoTouches(config, p, k, q, l);
  }

  lemma {:induction false} TwoTouches(config: Config, p: ManaCost.Slot, k: nat, q: ManaCost.Slot, l: nat)
    requires config.Sensible() && config.icca && !ManaCost.Updates(config, 1) && {p, q} == {0, 1}
    ensures ManaCost.At(ManaCost.Run(config, [ManaCost.Stored(p, k)]).rmc, p)
         == if p == 0 then config.initialRMC else 0.0
    ensures ManaCost.At(ManaCost.Run(config, [ManaCost.Stored(p, k), ManaCost.Stored(q, l)]).rmc, q)
         == config.initialRMC
  {
    hide ManaCost.Run;
    var a, b := ManaCost.Stored(p, k), ManaCost.Stored(q, l);
    assert [] + [a] == [a] && [a] + [b] == [a, b];
    ManaCost.NothingTouched(config);
    ManaCost.RunOn(config, [], a);
    ManaCost.RunOn(config, [a], b);
    assert p in {0, 1} && q in {0, 1} && 0 in {p, q} && 1 in {p, q};
  }
}
