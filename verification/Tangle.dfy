/** One node: its parts, wired up, and the inputs it reacts to (multiverse/tangle.go, multiverse/node.go, main.go). */
module Tangle {
  import opened Messages
  import opened Parameters
  import opened Metadata
  import opened PeerWeights
  import opened Pipeline
  import ApprovalManager
  import Booker
  import Buffers
  import Convergence
  import Dag
  import IccaScheduler
  import Listing
  import ManaCost
  import Opinions
  import Requester
  import RoundRobin
  import Schedule
  import Solidifier
  import Storage
  import Voting
  import Witnessing

  /** What makes a node act, one after the other. */
  datatype Input =
    | Deliver(message: Message)
    | Issue(id: MessageID, validation: bool, payload: Color, strongParents: set<MessageID>,
            weakParents: set<MessageID>, issuanceTime: Time)
    | Tick
    | AskCost(issuanceTime: Time)
    | Retry(id: MessageID)

  /** What the factory of any node guarantees of a message. */
  predicate Sound(config: Config, m: Message) {
    Dag.WellFormedMessage(m) && 0 <= m.issuer < config.nodesCount
  }

  /** Delivered messages are sound, and so are those to be issued. */
  predicate Fit(config: Config, input: Input) {
    && (input.Deliver? ==> Sound(config, input.message))
    && (input.Issue? ==>
         0 < input.id && forall p :: p in input.strongParents + input.weakParents ==> GENESIS <= p < input.id)
  }

  /** Settings, bandwidths and weights that a network is set up with. */
  ghost predicate Suitable(config: Config, quanta: seq<real>, distribution: ConsensusWeightDistribution)
    reads distribution
  {
    && config.Sensible() && |quanta| == config.nodesCount && 1.0 <= config.maxDeficit
    && (forall i :: 0 <= i < |quanta| ==> 0.0 < quanta[i])
    && distribution.Valid() && distribution.nodesCount == config.nodesCount
    && Sum(distribution.weights, distribution.weights.Keys, config.nodesCount) < TWO_TO_64
    && forall p :: WeightOf(distribution.weights, p) < Opinions.TWO_TO_63
  }

  /** The highest price that the slot of the message can have. */
  function HighestPrice(config: Config, genesisTime: Time, m: Message): real
    requires config.Sensible()
  {
    ManaCost.Highest(config, Storage.SlotIndex(config, genesisTime, m.issuanceTime))
  }

  /**
   What is stored after a run: what was stored before, and messages that were delivered or issued. No identity of an
   own message is free.
   */
  ghost predicate StoredFrom(before: Dag.Ledger, after: Dag.Ledger, inputs: seq<Input>, own: seq<Message>) {
    && Dag.Extends(before, after)
    && (forall id :: id in after && id !in before ==> Deliver(after[id]) in inputs || after[id] in own)
    && forall m :: m in own ==> m.id in after && IssueOf(m) in inputs
  }

  /** The input that has the message issued. */
  function IssueOf(m: Message): Input {
    Issue(m.id, m.validation, m.payload, m.strongParents, m.weakParents, m.issuanceTime)
  }

  function TicksIn(inputs: seq<Input>): nat {
    if inputs == [] then 0 else TicksIn(inputs[..|inputs| - 1]) + if inputs[|inputs| - 1].Tick? then 1 else 0
  }

  /** Every question for a price touched its slot, after the first touches. */
  ghost predicate AsksAnswered(
    config: Config, genesisTime: Time, inputs: seq<Input>, touches: seq<ManaCost.Touch>, start: nat)
    requires config.Sensible()
  {
    forall t :: AskCost(t) in inputs ==> AskedSince(touches, start, Storage.SlotIndex(config, genesisTime, t))
  }

  ghost predicate AskedSince(touches: seq<ManaCost.Touch>, start: nat, slot: ManaCost.Slot) {
    exists k :: start <= k < |touches| && touches[k].Asked? && touches[k].slot == slot
  }

  lemma OneMoreAnswer(
    config: Config, genesisTime: Time, inputs: seq<Input>, i: nat, touches: seq<ManaCost.Touch>,
    touches': seq<ManaCost.Touch>, start: nat)
    requires config.Sensible() && i < |inputs| && AsksAnswered(config, genesisTime, inputs[..i], touches, start)
    requires start <= |touches| && touches <= touches'
    requires inputs[i].AskCost? ==>
      AskedSince(touches', |touches|, Storage.SlotIndex(config, genesisTime, inputs[i].issuanceTime))
    ensures AsksAnswered(config, genesisTime, inputs[..i + 1], touches', start)
    ensures TicksIn(inputs[..i + 1]) == TicksIn(inputs[..i]) + if inputs[i].Tick? then 1 else 0
  {
    hide Storage.SlotIndex;
    var front, now := inputs[..i], inputs[..i + 1];
    assert now == front + [inputs[i]] && now[..|now| - 1] == front;
    forall t | AskCost(t) in now
      ensures AskedSince(touches', start, Storage.SlotIndex(config, genesisTime, t))
    {
      var slot := Storage.SlotIndex(config, genesisTime, t);
      if AskCost(t) in front {
        var k :| start <= k < |touches| && touches[k].Asked? && touches[k].slot == slot;
        assert touches'[k] == touches[k];
      } else {
        var k :| |touches| <= k < |touches'| && touches'[k].Asked? && touches'[k].slot == slot;
      }
    }
  }

  /** Of every delivered message that burns the highest price of its slot, the identity is taken. */
  ghost predicate PaidAreStored(config: Config, genesisTime: Time, after: Dag.Ledger, inputs: seq<Input>)
    requires config.Sensible()
  {
    forall m :: Deliver(m) in inputs && m.manaBurnValue >= HighestPrice(config, genesisTime, m) ==> m.id in after
  }

  lemma NothingDelivered(config: Config, genesisTime: Time, db: Dag.Ledger, inputs: seq<Input>)
    requires config.Sensible()
    ensures StoredFrom(db, db, inputs[..0], []) && PaidAreStored(config, genesisTime, db, inputs[..0])
  {
  }

  lemma OneMoreInput(
    config: Config, genesisTime: Time, before: Dag.Ledger, db: Dag.Ledger, db': Dag.Ledger, inputs: seq<Input>, i: nat,
    own: seq<Message>, own': seq<Message>, m: Message)
    requires config.Sensible() && i < |inputs|
    requires StoredFrom(before, db, inputs[..i], own) && PaidAreStored(config, genesisTime, db, inputs[..i])
    requires db' == db || (m.id !in db && db' == db[m.id := m])
    requires own' == own || (own' == own + [m] && m.id in db' && inputs[i] == IssueOf(m))
    requires db' != db ==> inputs[i] == Deliver(m) || own' == own + [m]
    requires inputs[i].Deliver? ==>
      inputs[i].message == m && (m.manaBurnValue >= HighestPrice(config, genesisTime, m) ==> m.id in db')
    ensures StoredFrom(before, db', inputs[..i + 1], own')
    ensures PaidAreStored(config, genesisTime, db', inputs[..i + 1])
  {
    var front, now := inputs[..i], inputs[..i + 1];
    assert now == front + [inputs[i]];
    assert forall x :: x in now <==> x in front || x == inputs[i];
  }

  // ----- accounts -----

  /** What a peer of that bandwidth earned by some ticks. */
  function Earned(quantum: real, ticks: nat): real {
    10.0 * quantum * ticks as real
  }

  lemma OneMoreTick(quantum: real, ticks: nat)
    ensures Earned(quantum, ticks + 1) == Earned(quantum, ticks) + 10.0 * quantum
  {
  }

  /** What some messages burned together. */
  function Burned(ms: seq<Message>): real {
    if ms == [] then 0.0 else Burned(ms[..|ms| - 1]) + ms[|ms| - 1].manaBurnValue
  }

  /**
   Own messages are numbered from 1 on, and everybody has what was earned, without what was burned by own messages.
   */
  ghost predicate Balanced(
    quanta: seq<real>, peer: PeerID, ticks: nat, created: seq<Message>, sequenceNumber: nat, accessMana: seq<real>)
  {
    && |created| == sequenceNumber && |accessMana| == |quanta|
    && (forall k :: 0 <= k < |created| ==> created[k].sequenceNumber == k + 1 && created[k].issuer == peer)
    && forall i :: 0 <= i < |quanta| ==>
         accessMana[i] == Earned(quanta[i], ticks) - if i == peer then Burned(created) else 0.0
  }

  lemma BalancedAfterTick(
    quanta: seq<real>, peer: PeerID, ticks: nat, created: seq<Message>, sequenceNumber: nat, accessMana: seq<real>,
    accessMana': seq<real>)
    requires Balanced(quanta, peer, ticks, created, sequenceNumber, accessMana) && |accessMana'| == |quanta|
    requires forall i :: 0 <= i < |quanta| ==> accessMana'[i] == accessMana[i] + 10.0 * quanta[i]
    ensures Balanced(quanta, peer, ticks + 1, created, sequenceNumber, accessMana')
  {
    hide Earned, Burned;
    forall i | 0 <= i < |quanta|
      ensures accessMana'[i] == Earned(quanta[i], ticks + 1) - if i == peer then Burned(created) else 0.0
    {
      OneMoreTick(quanta[i], ticks);
    }
  }

  lemma BalancedAfterPayment(
    quanta: seq<real>, peer: PeerID, ticks: nat, created: seq<Message>, sequenceNumber: nat, accessMana: seq<real>,
    m: Message)
    requires Balanced(quanta, peer, ticks, created, sequenceNumber, accessMana) && 0 <= peer < |quanta|
    requires m.issuer == peer && m.sequenceNumber == sequenceNumber + 1
    ensures Balanced(quanta, peer, ticks, created + [m], sequenceNumber + 1,
                     accessMana[peer := accessMana[peer] - m.manaBurnValue])
  {
    hide Earned;
    assert (created + [m])[..|created|] == created;
  }

  /** The parts of a node, wired up. */
  method NewParts(
    config: Config, peer: PeerID, spamming: bool, genesisTime: Time, quanta: seq<real>,
    distribution: ConsensusWeightDistribution) returns (s: Solidifier.Solidifier)
    requires Suitable(config, quanta, distribution)
    ensures s.Valid() && s.scheduler.Logged() && s.scheduler.Funded()
    ensures s.storage.messageDB == map[] && s.storage.touches == [] && s.storage.config == config
    ensures s.storage.footprint == {} && s.requester.queuedElements == {} && s.solidLog == []
    ensures s.requester.sent == []
    ensures s.scheduler.peer == peer && s.scheduler.spamming == spamming && s.scheduler.served == {}
    ensures s.storage.genesisTime == genesisTime && s.storage.ATT == genesisTime && s.scheduler.quanta == quanta
    ensures s.scheduler.accessMana == seq(|quanta|, i => 0.0) && s.scheduler.Flow() == Buffers.Flow({}, {})
    ensures s.scheduler.scheduledLog == [] && s.scheduler.run.Length() == 0
    ensures fresh(s) && fresh(s.storage) && fresh(s.requester) && fresh(s.opinions) && fresh(s.scheduler)
    ensures fresh(s.booker) && fresh(s.approvalManager)
    ensures Solidifier.Overlooked(map[], s.Solids()) == {} && Solidifier.MissingSet(map[]) == {}
    ensures s.approvalManager.weights == distribution.weights == s.opinions.weights
  {
    hide Bookings, Approvals, Dated, Solidity, SolidIDs, Storage.Storage.Valid, Opinions.OpinionManager.Valid,
      Opinions.OpinionManager.Settled, Solidifier.Overlooked, Solidifier.MissingSet, Solidifier.Solidifier.Valid,
      Booker.Booker.Valid, ApprovalManager.ApprovalManager.Valid, IccaScheduler.ICCAScheduler.Placed,
      IccaScheduler.ICCAScheduler.History, IccaScheduler.ICCAScheduler.Logged, ConsensusWeightDistribution.Valid,
      Schedule.Counted;
    TotalIsExact(distribution);
    Solidifier.NothingToDo();
    var storage := new Storage.Storage(config, genesisTime);
    var scheduler := new IccaScheduler.ICCAScheduler(config, quanta, peer, spamming, storage);
    var opinions := new Opinions.OpinionManager(config, distribution.weights);
    var booker := new Booker.Booker(opinions, scheduler);
    var approvalManager := new ApprovalManager.ApprovalManager(
      config, distribution.weights, distribution.totalWeight, scheduler);
    var requester := new Requester.Requester();
    s := new Solidifier.Solidifier(requester, booker, approvalManager);
  }

  class Tangle {
    const config: Config
    const storage: Storage.Storage
    const requester: Requester.Requester
    const opinions: Opinions.OpinionManager
    const scheduler: IccaScheduler.ICCAScheduler
    const booker: Booker.Booker
    const approvalManager: ApprovalManager.ApprovalManager
    const solidifier: Solidifier.Solidifier
    var sequenceNumber: nat           // of the last own message
    ghost var created: seq<Message>   // the own messages
    ghost var ticks: nat
    ghost var idle: nat               // the ticks that found no message to schedule

    ghost predicate Linked()
      reads storage
    {
      && solidifier.storage == storage && solidifier.requester == requester && solidifier.opinions == opinions
      && solidifier.scheduler == scheduler && solidifier.booker == booker
      && solidifier.approvalManager == approvalManager && storage.config == config
      && approvalManager.weights == opinions.weights
      && this !in storage.footprint && solidifier !in storage.footprint && requester !in storage.footprint
      && booker !in storage.footprint && approvalManager !in storage.footprint
      && opinions !in storage.footprint && scheduler !in storage.footprint && storage !in storage.footprint
    }

    ghost predicate Valid()
      reads storage, storage.footprint, opinions, scheduler, booker, approvalManager, solidifier
    {
      Linked() && solidifier.Valid()
    }

    /** The own messages are paid for, and every other tick scheduled a message. */
    ghost predicate Accounts()
      reads this`sequenceNumber, this`created, this`ticks, this`idle
      reads scheduler`accessMana, scheduler`run, scheduler`served
    {
      && Balanced(scheduler.quanta, scheduler.peer, ticks, created, sequenceNumber, scheduler.accessMana)
      && ticks == idle + scheduler.run.Length() && |scheduler.served| == scheduler.run.Length()
    }

    /** Between two inputs nothing is left to be done. */
    ghost predicate Quiescent()
      reads this`sequenceNumber, this`created, this`ticks, this`idle
      reads storage, storage.footprint, opinions, scheduler, booker, approvalManager, solidifier, requester
    {
      && Valid() && Accounts() && Solidifier.Overlooked(storage.messageDB, solidifier.Solids()) == {}
      && requester.queuedElements == Solidifier.MissingSet(storage.messageDB) && requester.AllSent()
      && scheduler.Logged() && scheduler.Funded()
    }

    /** What of the state depends on the stored messages alone. */
    ghost function Snapshot(): Convergence.Snapshot
      reads storage, booker, requester, opinions
    {
      Convergence.Snapshot(storage.messageDB, storage.view, booker.invalid, requester.queuedElements,
                           booker.bookedLog, opinions.peerOpinions, opinions.approvalWeights, opinions.ownOpinion)
    }

    /** Between two inputs all incremental records equal the functions of the stored messages that they cache. */
    lemma RecordsAreExact()
      requires Quiescent()
      ensures Convergence.Settled(opinions.weights, config.nodesCount, Snapshot())
    {
      hide Dag.WellFormed, Witnessing.WitnessesExact, Witnessing.Weighed, Witnessing.Judged, Voting.Colored,
        Voting.LatestVotes, Opinions.Tallied, Opinions.Alternating, Opinions.Passes, Dag.Closed, Announced, Once,
        IccaScheduler.ICCAScheduler.Placed, IccaScheduler.ICCAScheduler.History, ParentsFirst, Solidifier.MissingSet,
        Dag.Bookable, Dag.SolidSet, Listing.VotesAfter, Listing.ColorsAfter, Schedule.Counted;
      var db, solids := storage.messageDB, solidifier.Solids();
      Solidifier.NoneOverlooked(db, solids);
    }

    /**
     No lost wake-up: a validly booked message waits, is queued or was popped, and it waits exactly as long as a parent
     is not eligible.
     */
    lemma EveryMessageResides(id: MessageID)
      requires Quiescent()
      ensures var waits, queued, popped :=
          id in scheduler.nonReadyMap,
          id in storage.messageDB && Buffers.InQueue(scheduler.issuerQueues, storage.messageDB[id]),
          id in scheduler.popped;
        && (id in Dag.SolidSet(storage.messageDB) && Dag.Bookable(storage.messageDB, id) <==> waits || queued || popped)
        && !(waits && queued) && !(waits && popped) && !(queued && popped)
        && (waits || queued || popped ==> id in storage.messageDB)
        && (waits <==> id in Dag.SolidSet(storage.messageDB) && Dag.Bookable(storage.messageDB, id)
                       && !Storage.ParentsEligible(storage.messageDB, storage.view, config.confEligible, id))
      ensures scheduler.readyLen == Buffers.TotalLength(scheduler.issuerQueues)
    {
      hide Witnessing.WitnessesExact, Witnessing.InOrder, Voting.Colored, Voting.LatestVotes,
        Opinions.OpinionManager.Valid, Dag.Closed, Dag.WellFormed, Announced, Once, ParentsFirst,
        Storage.Storage.Valid, Storage.ParentsEligible, Dag.Bookable, RoundRobin.Valid, Dag.Solid, Buffers.QueuesHold,
        Buffers.SolidHasParents, Solidifier.MissingSet, Schedule.Justified, Schedule.Counted, Listing.Tabled;
      Solidifier.NoneOverlooked(storage.messageDB, solidifier.Solids());
      assert Buffers.Queued(storage.messageDB, scheduler.Contents(), id)
        <==> id in storage.messageDB && Buffers.InQueue(scheduler.issuerQueues, storage.messageDB[id]);
    }

    /** Every solid message was handed to the scheduler, or reported invalid. */
    lemma EnqueuedOrInvalid(id: MessageID)
      requires Quiescent()
      ensures id in scheduler.enqueued
         <==> id in Dag.SolidSet(storage.messageDB) && Dag.Bookable(storage.messageDB, id)
      ensures id in booker.invalid <==> id in Dag.SolidSet(storage.messageDB) && !Dag.Bookable(storage.messageDB, id)
    {
      hide Witnessing.WitnessesExact, Witnessing.InOrder, Voting.Colored, Voting.LatestVotes, Approvals, Dated,
        IccaScheduler.ICCAScheduler.Placed, IccaScheduler.ICCAScheduler.History, Opinions.OpinionManager.Valid,
        Opinions.OpinionManager.Settled, Dag.WellFormed, Announced, Once, ParentsFirst, Dag.Solid, Dag.Bookable,
        Solidifier.MissingSet, Listing.Tabled, Schedule.Counted, Tangle.Accounts;
      Solidifier.NoneOverlooked(storage.messageDB, solidifier.Solids());
    }

    lemma {:induction false} LedgerInOrder()
      requires Quiescent()
      ensures Dag.WellFormed(storage.messageDB)
      ensures Dag.Closed(storage.messageDB, Dag.SolidSet(storage.messageDB))
    {
      SchedulerInOrder();
      scheduler.StorageInOrder({});
      Dag.SolidSetIsClosed(storage.messageDB);
    }

    /** Of the solid messages that are not eligible, those that are neither waiting nor bad are queued. */
    lemma IneligibleResides(p: MessageID)
      requires Quiescent() && p in Dag.SolidSet(storage.messageDB)
      requires !(p in storage.view && storage.view[p].Eligible(config.confEligible))
      ensures p in storage.messageDB
      ensures p in scheduler.nonReadyMap || p in Bad()
           || Buffers.InQueue(scheduler.issuerQueues, storage.messageDB[p])
    {
      hide Tangle.Quiescent, Schedule.Times, Dag.Bookable, Dag.Solid, Storage.ParentsEligible, Buffers.InQueue;
      LedgerInOrder();
      SchedulerInOrder();
      scheduler.Recorded(p, {});
      EnqueuedOrInvalid(p);
      EveryMessageResides(p);
      SchedulingIsExact(p);
    }

    /**
     Once the queues are empty, a message still waits iff it cannot do without a message that is invalid or was dropped:
     a chain of parents that are not eligible leads to one.
     */
    lemma {:induction false} WaitsIffStuck(id: MessageID)
      requires Quiescent() && scheduler.Backlog() == {}
      requires id in Dag.SolidSet(storage.messageDB) && Dag.Bookable(storage.messageDB, id)
      ensures id in storage.messageDB
      ensures id in scheduler.nonReadyMap
         <==> Buffers.Stuck(storage.messageDB, storage.view, config.confEligible, Bad(), id)
    {
      hide Tangle.Quiescent, Dag.Bookable, Dag.SolidSet, Buffers.Stuck, Storage.ParentsEligible, Buffers.Excused,
        Tangle.Bad, Dag.WellFormed;
      LedgerInOrder();
      EveryMessageResides(id);
      AllExcused();
      if id in scheduler.nonReadyMap {
        Buffers.WaitingIsStuck(storage.messageDB, storage.view, config.confEligible, scheduler.nonReadyMap.Keys, Bad(),
                               id);
      }
      if Buffers.Stuck(storage.messageDB, storage.view, config.confEligible, Bad(), id) {
        Buffers.StuckIsIneligible(storage.messageDB, storage.view, config.confEligible, Bad(), id);
      }
    }

    lemma AllExcused()
      requires Quiescent() && scheduler.Backlog() == {}
      ensures Buffers.Excused(storage.messageDB, storage.view, config.confEligible, scheduler.nonReadyMap.Keys, Bad())
    {
      hide Tangle.Quiescent, Dag.Bookable, Storage.ParentsEligible, Tangle.Bad, Buffers.Blockers, Buffers.InQueue;
      LedgerInOrder();
      ghost var db, view := storage.messageDB, storage.view;
      forall x | x in scheduler.nonReadyMap
        ensures x in db && Buffers.Blockers(db, view, config.confEligible, x) != {}
        ensures Buffers.Blockers(db, view, config.confEligible, x) <= scheduler.nonReadyMap.Keys + Bad()
      {
        EveryMessageResides(x);
        Buffers.BlockedIff(db, view, config.confEligible, Dag.SolidSet(db), x);
        forall p | p in Buffers.Blockers(db, view, config.confEligible, x)
          ensures p in scheduler.nonReadyMap.Keys + Bad()
        {
          IneligibleResides(p);
          scheduler.NobodyIsQueued(db[p]);
        }
      }
    }

    /** The messages that are invalid, and those that were dropped. */
    ghost function Bad(): set<MessageID>
      reads booker, scheduler
    {
      booker.invalid + (scheduler.popped - scheduler.served)
    }

    /**
     How often a message was scheduled. Who has to wait is scheduled at most once, by a tick, and after its parents;
     who need not wait is scheduled as soon as it is booked, whether its parents are eligible or not.
     */
    lemma SchedulingIsExact(id: MessageID)
      requires Quiescent() && id in storage.messageDB
      ensures var m, times := storage.messageDB[id], multiset(scheduler.scheduledLog)[id];
        && times == Schedule.Times(storage.messageDB, scheduler.peer, scheduler.spamming, scheduler.enqueued,
                                   scheduler.served, id)
        && (storage.view[id].scheduled <==> times > 0)
        && (!scheduler.Bypasses(m) ==>
             && (storage.view[id].scheduled <==> id in scheduler.served) && times <= 1
             && (storage.view[id].scheduled ==>
                  && id in scheduler.popped
                  && Storage.ParentsEligible(storage.messageDB, storage.view, config.confEligible, id)))
        && (scheduler.Bypasses(m) ==>
             storage.view[id].scheduled
               == (id in Dag.SolidSet(storage.messageDB) && Dag.Bookable(storage.messageDB, id)))
    {
      hide Witnessing.WitnessesExact, Witnessing.InOrder, Voting.Colored, Voting.LatestVotes,
        Opinions.OpinionManager.Valid, Dag.Closed, Dag.WellFormed, Announced, Once, ParentsFirst, Buffers.Sorted,
        Storage.ParentsEligible, Dag.Bookable, RoundRobin.Valid, Dag.Solid, Buffers.TotalLength,
        Buffers.SolidHasParents, Solidifier.MissingSet, Listing.Tabled, Opinions.OpinionManager.Settled, Dated;
      var db, log := storage.messageDB, scheduler.scheduledLog;
      Solidifier.NoneOverlooked(db, solidifier.Solids());
      assert multiset(log)[id] == Schedule.Times(db, scheduler.peer, scheduler.spamming, scheduler.enqueued,
                                                 scheduler.served, id);
      assert id in log <==> id in multiset(log);
      if !scheduler.Bypasses(db[id]) && storage.view[id].scheduled {
        Schedule.OnceAndAfterParents(db, storage.view, config.confEligible, scheduler.peer, scheduler.spamming, log,
                                     scheduler.confirmedThen, scheduler.enqueued, scheduler.popped, scheduler.served,
                                     id);
      }
    }

    /** At any scheduling event that waited, every parent had been scheduled before, or was confirmed by then. */
    lemma ScheduledAfterParents(i: nat)
      requires Quiescent() && i < |scheduler.scheduledLog|
      ensures var log, confirmed := scheduler.scheduledLog, scheduler.confirmedThen;
        && log[i] in storage.messageDB && |confirmed| == |log| && confirmed[i] <= Schedule.ConfirmedIDs(storage.view)
        && (Schedule.Waited(storage.messageDB, scheduler.peer, scheduler.spamming, log, i) ==>
             Schedule.Ripe(storage.messageDB, config.confEligible, log, confirmed, i))
        && (!scheduler.Bypasses(storage.messageDB[log[i]]) ==>
             Schedule.Ripe(storage.messageDB, config.confEligible, log, confirmed, i))
    {
      hide Bookings, Approvals, Dated, Solidity, Buffers.Sorted, RoundRobin.Valid, Buffers.TotalLength,
        Opinions.OpinionManager.Valid, Opinions.OpinionManager.Settled, Solidifier.Overlooked, Solidifier.MissingSet,
        Listing.Tabled, Schedule.Counted, Storage.Storage.Valid, Schedule.Ripe, Schedule.ConfirmedIDs, Tangle.Accounts;
      assert scheduler.History();
      assert Schedule.Justified(storage.messageDB, storage.view, config.confEligible, scheduler.peer,
                                scheduler.spamming, scheduler.scheduledLog, scheduler.confirmedThen);
    }

    /**
     Every confirmation that was reported was that of the heaviest colour, which led by more than the threshold then,
     and every retraction was that of a colour that was not the heaviest any more. The last notice tells whether the
     opinion is confirmed, which it is whenever it leads by enough.
     */
    lemma ConfirmationsAreDeserved(i: nat)
      requires Quiescent() && i < |opinions.notices|
      ensures |opinions.tallies| == |opinions.notices|
      ensures var notice, aw := opinions.notices[i], opinions.tallies[i];
        && (notice.Confirmed? <==> i % 2 == 0)
        && (notice.Confirmed? <==> notice.color == Opinions.MaxOpinion(aw))
        && (notice.Confirmed? ==>
             var weight, other := Opinions.WeightIn(aw, notice.color), Opinions.MaxOpinion(aw - {notice.color});
             var lead := if config.confirmationThresholdAbsolute then weight else weight - Opinions.WeightIn(aw, other);
             lead as real > config.nodesTotalWeight as real * config.confirmationThreshold)
      ensures opinions.colorConfirmed <==> |opinions.notices| % 2 == 1
      ensures opinions.approvalWeights == map[] || opinions.colorConfirmed
           || !Opinions.Passes(config, opinions.approvalWeights, opinions.ownOpinion)
    {
      hide Bookings, Approvals, Dated, Solidity, IccaScheduler.ICCAScheduler.Valid, Solidifier.Overlooked,
        Solidifier.MissingSet, Listing.Tabled, Tangle.Accounts, Opinions.Tallied, Opinions.Passes, Opinions.MaxOpinion;
      assert Opinions.Deserved(opinions.config, opinions.notices[i], opinions.tallies[i]);
      assert Opinions.InTurn(opinions.notices, i);
    }

    /** Every solid message was announced once, after its parents; every confirmed message was announced once. */
    lemma EventsAreExact()
      requires Quiescent()
      ensures Once(solidifier.solidLog) && ParentsFirst(storage.messageDB, solidifier.solidLog)
      ensures forall id :: id in solidifier.solidLog <==> id in Dag.SolidSet(storage.messageDB)
      ensures booker.bookedLog == solidifier.solidLog
      ensures Once(approvalManager.confirmedLog)
      ensures forall id :: id in approvalManager.confirmedLog <==> id in storage.view && storage.view[id].confirmed
    {
      hide Witnessing.WitnessesExact, Witnessing.InOrder, Voting.Colored, Voting.LatestVotes, Dated, Dag.Closed,
        IccaScheduler.ICCAScheduler.Placed, IccaScheduler.ICCAScheduler.History, Opinions.OpinionManager.Valid,
        Dag.WellFormed, Once, ParentsFirst, Dag.Solid, Solidifier.MissingSet, Listing.Tabled, Schedule.Counted;
      Solidifier.NoneOverlooked(storage.messageDB, solidifier.Solids());
    }

    /** The accepted tangle time is the latest issuance of a confirmed message, and by it all orphans are too old. */
    lemma TimesAreExact(id: MessageID)
      requires Quiescent() && id in storage.messageDB
      ensures storage.view[id].confirmed ==> storage.messageDB[id].issuanceTime <= storage.ATT
      ensures storage.view[id].orphaned ==>
        storage.messageDB[id].issuanceTime + config.minCommittableAge * config.slowdownFactor < storage.ATT
      ensures storage.ATT != storage.genesisTime ==>
        exists x :: x in storage.messageDB && storage.view[x].confirmed
                 && storage.messageDB[x].issuanceTime == storage.ATT
    {
      hide Witnessing.WitnessesExact, Witnessing.InOrder, Voting.Colored, Voting.LatestVotes, Dag.Closed,
        IccaScheduler.ICCAScheduler.Placed, IccaScheduler.ICCAScheduler.History, Opinions.OpinionManager.Valid,
        Dag.WellFormed, Once, ParentsFirst, Dag.Solid, Solidifier.MissingSet, Solidifier.Overlooked, Listing.Tabled,
        Schedule.Counted;
    }

    /**
     A confirmed message weighs enough. A witnessed message that weighs enough is confirmed, unless it was issued too
     long before the accepted tangle time.
     */
    lemma ConfirmedAreHeavy(id: MessageID)
      requires Quiescent() && id in storage.messageDB
      ensures id in storage.view && |storage.view[id].weightSlice| == SliceLength(config.nodesCount)
      ensures var r := storage.view[id];
        var heavy := r.weight as real >= config.confirmationThreshold
                       * Sum(approvalManager.weights, approvalManager.weights.Keys, config.nodesCount) as real;
        && r.weight == Sum(approvalManager.weights, Witnesses(r.weightSlice, config.nodesCount), config.nodesCount)
        && (r.confirmed ==> heavy && Witnesses(r.weightSlice, config.nodesCount) != {})
        && (heavy && Witnesses(r.weightSlice, config.nodesCount) != {} ==>
             r.confirmed
             || storage.messageDB[id].issuanceTime + config.minCommittableAge * config.slowdownFactor < storage.ATT)
    {
      hide Bookings, Approvals, Dated, Solidity, IccaScheduler.ICCAScheduler.Valid, Opinions.OpinionManager.Valid,
        Opinions.OpinionManager.Settled, Solidifier.Overlooked, Solidifier.MissingSet, Listing.Tabled, Tangle.Accounts,
        Sum, Witnesses;
      HeavyAreConfirmed(config, storage.genesisTime, storage.messageDB, approvalManager.weights,
                        approvalManager.Threshold(), storage.view, approvalManager.approved,
                        approvalManager.confirmedLog, Clock(storage.acceptedSlotDB, storage.ATT), id);
    }

    /** Exactly the missing parents of stored messages are under way, and each of them was requested. */
    lemma MissingAreRequested(id: MessageID)
      requires Quiescent()
      ensures id in requester.queuedElements
         <==> id != GENESIS && id !in storage.messageDB && Solidifier.IsParent(storage.messageDB, id)
      ensures id in requester.queuedElements ==> id in requester.sent
    {
      hide Bookings, Approvals, Dated, Solidity, IccaScheduler.ICCAScheduler.Valid, Opinions.OpinionManager.Valid,
        Opinions.OpinionManager.Settled, Solidifier.Overlooked, Listing.Tabled, Tangle.Accounts;
      Solidifier.MissingIff(storage.messageDB, id);
    }

    /** Confirmation closure: an ancestor of a confirmed message is confirmed or orphaned, and nothing is both. */
    lemma {:induction false} AncestorsAreJudged(a: MessageID, m: MessageID)
      requires Quiescent() && m in storage.messageDB && storage.view[m].confirmed && Dag.InCone(storage.messageDB, a, m)
      ensures a in storage.view && (storage.view[a].confirmed || storage.view[a].orphaned)
      ensures !(storage.view[a].confirmed && storage.view[a].orphaned)
    {
      hide IccaScheduler.ICCAScheduler.Placed, IccaScheduler.ICCAScheduler.History, Opinions.OpinionManager.Valid,
        Voting.Colored, Voting.LatestVotes, Dag.Closed, Dag.WellFormed, Announced, Once, ParentsFirst,
        Witnessing.WitnessesExact, Witnessing.Weighed, Dag.InCone, Listing.Tabled, Schedule.Counted;
      Witnessing.ConfirmationClosure(storage.messageDB, approvalManager.weights, config.nodesCount,
                                     approvalManager.Threshold(), storage.view, approvalManager.approved, a, m);
      assert Witnessing.Judged(approvalManager.Threshold(), config.nodesCount, storage.view[a]);
    }

    // ----- prices -----

    lemma PricesAreOfTouches()
      requires Quiescent()
      ensures config.Sensible() && storage.CostState() == ManaCost.Run(config, storage.touches)
    {
      hide Bookings, Approvals, Dated, Solidity, Buffers.Sorted, RoundRobin.Valid, Buffers.TotalLength,
        Opinions.OpinionManager.Valid, Opinions.OpinionManager.Settled, Solidifier.Overlooked, Solidifier.MissingSet,
        Listing.Tabled, Schedule.Counted, Schedule.Justified, ManaCost.Run, Storage.SlotsIndexed,
        Storage.ChildrenIndexed, Dag.WellFormed;
    }

    /** As long as slots were first touched in order, all prices are within the bounds and move by small steps. */
    lemma {:induction false} PricesAreBounded() returns (n: nat, m: nat)
      requires Quiescent() && ManaCost.Bounds(config) && ManaCost.InOrder(storage.touches)
      ensures ManaCost.Orderly(config, storage.CostState(), n, m)
    {
      PricesAreOfTouches();
      n, m := ManaCost.CostsStayBounded(config, storage.touches);
    }

    /** In whatever order slots were touched: no price was ever out of bounds iff every new price was grounded. */
    lemma PricesInRangeIff()
      requires Quiescent() && ManaCost.Bounds(config)
      ensures (forall i :: 0 <= i <= |storage.touches| ==> ManaCost.InRangeAt(config, storage.touches, i))
         <==> (forall i :: 0 <= i < |storage.touches| ==> ManaCost.GroundedAt(config, storage.touches, i))
    {
      ManaCost.AlwaysInRangeIff(config, storage.touches, |storage.touches|);
    }

    /** The price of a slot that has one is not above the highest price for it. */
    lemma {:induction false} PricesAreBelowHighest(slot: ManaCost.Slot)
      requires Quiescent() && slot in storage.rmc
      ensures storage.rmc[slot] <= ManaCost.Highest(config, slot)
    {
      PricesAreOfTouches();
      hide ManaCost.Highest, ManaCost.Run;
      ManaCost.NeverAboveHighest(config, storage.touches);
    }

    /** Every tick that found a message to schedule is a call of the round robin, and scheduled another message. */
    lemma TicksAreCalls()
      requires Quiescent()
      ensures ticks == idle + scheduler.run.Length() == idle + |scheduler.served|
    {
      SchedulerInOrder();
    }

    /** Own messages have different numbers, and burned no more than was earned. */
    lemma OwnMessagesArePaid(j: nat, k: nat)
      requires Quiescent() && 0 <= scheduler.peer < config.nodesCount
      ensures Burned(created) <= Earned(scheduler.quanta[scheduler.peer], ticks)
      ensures j < k < |created| ==> created[j].sequenceNumber != created[k].sequenceNumber
    {
      SchedulerInOrder();
    }

    /** No slot ever costs more than the highest price. */
    lemma {:induction false} PricesAreCapped(slot: ManaCost.Slot)
      requires Quiescent() && ManaCost.Capped(config)
      ensures ManaCost.At(storage.rmc, slot) <= config.rmcMax
    {
      PricesAreOfTouches();
      ManaCost.NeverAboveMaximum(config, storage.touches, slot);
    }

    /** The message burns at least what its slot costs. */
    predicate Affordable(message: Message)
      requires config.Sensible()
      reads storage`rmc
    {
      message.manaBurnValue
        >= ManaCost.At(storage.rmc, Storage.SlotIndex(config, storage.genesisTime, message.issuanceTime))
    }

    /** Sets up a node for given weights and bandwidths, with nothing stored. */
    constructor (
      config: Config, peer: PeerID, spamming: bool, genesisTime: Time, quanta: seq<real>,
      distribution: ConsensusWeightDistribution)
      requires Suitable(config, quanta, distribution)
      ensures Quiescent() && storage.messageDB == map[] && this.config == config && storage.touches == []
      ensures approvalManager.weights == distribution.weights == opinions.weights && solidifier.solidLog == []
      ensures storage.genesisTime == genesisTime && storage.ATT == genesisTime && scheduler.quanta == quanta
      ensures scheduler.peer == peer && scheduler.spamming == spamming && scheduler.served == {} && sequenceNumber == 0
      ensures scheduler.Flow() == Buffers.Flow({}, {}) && scheduler.scheduledLog == [] && created == []
      ensures ticks == 0 && scheduler.run.Length() == 0
      ensures fresh(storage) && fresh(storage.footprint) && fresh(requester) && fresh(opinions) && fresh(scheduler)
      ensures fresh(booker) && fresh(approvalManager) && fresh(solidifier)
    {
      hide Bookings, Approvals, Dated, Solidity, SolidIDs, Solidifier.Overlooked, Solidifier.MissingSet,
        Solidifier.Solidifier.Valid, IccaScheduler.ICCAScheduler.Logged, ConsensusWeightDistribution.Valid;
      this.config := config;
      var parts := NewParts(config, peer, spamming, genesisTime, quanta, distribution);
      solidifier, storage, requester, opinions := parts, parts.storage, parts.requester, parts.opinions;
      scheduler, booker, approvalManager := parts.scheduler, parts.booker, parts.approvalManager;
      sequenceNumber, created, ticks, idle := 0, [], 0, 0;
    }

    /** A new message touches its slot. */
    ghost predicate Touched(before: seq<ManaCost.Touch>, slots: Storage.Slots, message: Message, really: bool)
      requires config.Sensible()
      reads storage`touches
    {
      var slot := Storage.SlotIndex(config, storage.genesisTime, message.issuanceTime);
      storage.touches
        == before + if really then [ManaCost.Stored(slot, Storage.Traffic(config, slots, slot))] else []
    }

    /** Stores a message and makes solid what it completes; the two handlers of the event come in any order. */
    method ProcessMessage(message: Message)
      requires Quiescent() && Sound(config, message)
      modifies storage, storage.footprint, requester, opinions, scheduler, booker, approvalManager, solidifier
      ensures Quiescent() && Solidifier.Continues(old(solidifier.Events()), solidifier.Events())
      ensures storage.messageDB == if message.id !in old(storage.messageDB) && Affordable(message)
                                   then old(storage.messageDB)[message.id := message] else old(storage.messageDB)
      ensures Touched(old(storage.touches), old(storage.slotDB), message, message.id !in old(storage.messageDB))
      ensures scheduler.served == old(scheduler.served) && scheduler.accessMana == old(scheduler.accessMana)
      ensures Buffers.Flows(config.maxBuffer, old(scheduler.Flow()), scheduler.Flow())
      ensures fresh(storage.footprint - old(storage.footprint))
    {
      hide Solidifier.Overlooked, Solidifier.MissingSet, Solidifier.Requested, Solidifier.Continues,
        Solidifier.Solidifier.Valid, SolidIDs, Dag.WellFormedMessage, IccaScheduler.ICCAScheduler.Logged,
        IccaScheduler.ICCAScheduler.Funded, Tangle.Touched, Tangle.Affordable, Balanced, Buffers.Flows,
        IccaScheduler.ICCAScheduler.Left, Solidifier.Solidifier.Events;
      ghost var db := storage.messageDB;
      OneConfig();
      Solidifier.NothingHappened(solidifier.Events());
      Buffers.FlowsWithin(config.maxBuffer, scheduler.Flow(), scheduler.Flow());
      var stored := Store(message);
      if stored {
        Solidifier.OnlyNewOverlooked(db, message, solidifier.Solids());
        Complete(message, db);
      }
    }

    /** Makes solid what a stored message completes, and takes back its request. */
    method Complete(message: Message, ghost db: Dag.Ledger)
      requires Valid() && message.id !in db && storage.messageDB == db[message.id := message]
      requires Solidifier.Overlooked(storage.messageDB, solidifier.Solids()) - {message.id} == {}
      requires requester.queuedElements == Solidifier.MissingSet(db)
      modifies requester, opinions, booker, approvalManager, solidifier
      modifies scheduler`nonReadyMap, scheduler`issuerQueues, scheduler`readyLen, scheduler`enqueued, scheduler`popped,
        scheduler`scheduledLog, scheduler`confirmedThen
      modifies storage`view, storage.footprint, storage`acceptedSlotDB, storage`ATT
      ensures Valid() && Solidifier.Overlooked(storage.messageDB, solidifier.Solids()) == {}
      ensures requester.queuedElements == Solidifier.MissingSet(storage.messageDB)
      ensures old(requester.AllSent()) ==> requester.AllSent()
      ensures Solidifier.Continues(old(solidifier.Events()), solidifier.Events())
      ensures Buffers.Flows(scheduler.config.maxBuffer, old(scheduler.Flow()), scheduler.Flow())
    {
      hide Solidifier.Overlooked, Solidifier.MissingSet, Solidifier.Requested, Solidifier.Continues,
        Solidifier.Solidifier.Valid, SolidIDs, Buffers.Flows, IccaScheduler.ICCAScheduler.Left,
        Solidifier.Solidifier.Events;
      ghost var queued := requester.queuedElements;
      if * {
        requester.StopRequest(message.id);
        solidifier.Solidify(message.id);
        Solidifier.NothingStillMissing(db, message, queued, queued - {message.id}, requester.queuedElements);
      } else {
        solidifier.Solidify(message.id);
        ghost var requested := requester.queuedElements;
        requester.StopRequest(message.id);
        Solidifier.NothingStillMissing(db, message, queued, queued, requested);
      }
    }

    /**
     Everybody earned ten quanta, and if a queue held a message, one was scheduled: a first one of the issuer that the
     round robin chose.
     */
    twostate predicate Ticked(turn: RoundRobin.Turn, m: Message)
      reads this`ticks, this`idle, scheduler, storage`view
    {
      && ticks == old(ticks) + 1 && scheduler.enqueued == old(scheduler.enqueued)
      && |scheduler.accessMana| == |old(scheduler.accessMana)| == |scheduler.quanta|
      && (forall i :: 0 <= i < |scheduler.quanta| ==>
           scheduler.accessMana[i] == old(scheduler.accessMana)[i] + 10.0 * scheduler.quanta[i])
      && (old(scheduler.Backlog()) == {} ==>
        && idle == old(idle) + 1
        && scheduler.run == old(scheduler.run) && scheduler.Contents() == old(scheduler.Contents())
        && scheduler.served == old(scheduler.served) && scheduler.scheduledLog == old(scheduler.scheduledLog)
        && storage.view == old(storage.view))
      && (old(scheduler.Backlog()) != {} ==>
        && idle == old(idle)
        && scheduler.run == RoundRobin.Call(old(scheduler.run), turn, scheduler.Ring())
        && turn.backlog == old(scheduler.Backlog()) && m.issuer == turn.chosen
        && 0 <= m.issuer < |old(scheduler.issuerQueues)| && m in old(scheduler.issuerQueues)[m.issuer]
        && (forall x :: x in old(scheduler.issuerQueues)[m.issuer] ==>
             m.issuanceTime % 1_000_000_000 <= x.issuanceTime % 1_000_000_000)
        && m.id !in old(scheduler.popped) && scheduler.popped == old(scheduler.popped) + {m.id}
        && scheduler.served == old(scheduler.served) + {m.id}
        && scheduler.scheduledLog == old(scheduler.scheduledLog) + [m.id]
        && Buffers.OnlyScheduled(old(storage.view), storage.view, m.id, true))
    }

    /** A tick: everybody earns access mana, and the scheduler serves one message. */
    method ScheduleMessage() returns (ghost turn: RoundRobin.Turn, ghost m: Message)
      requires Quiescent()
      modifies `ticks, `idle, scheduler, storage`view, storage.footprint
      ensures Quiescent() && solidifier.Events() == old(solidifier.Events()) && Ticked(turn, m)
      // the buffer overflows by a tick iff the tick wakes up more messages than there is room for
      ensures old(scheduler.Backlog()) != {} ==>
        var woken := |old(scheduler.nonReadyMap.Keys * scheduler.Foreseen(m.id, true))|;
        && scheduler.nonReadyMap == old(scheduler.nonReadyMap - scheduler.Foreseen(m.id, true))
        && scheduler.readyLen == old(scheduler.readyLen) - 1 + woken
        && (scheduler.readyLen > config.maxBuffer <==> woken > config.maxBuffer - (old(scheduler.readyLen) - 1))
    {
      hide Solidifier.Solidifier.Valid, Solidifier.Overlooked, Solidifier.MissingSet, SolidIDs, Buffers.OnlyMarked,
        RoundRobin.Step, Buffers.OnlyScheduled, Buffers.EligibleSet, IccaScheduler.ICCAScheduler.Logged,
        IccaScheduler.ICCAScheduler.Valid, IccaScheduler.ICCAScheduler.Counted, IccaScheduler.ICCAScheduler.Foreseen,
        IccaScheduler.ICCAScheduler.Backlog, IccaScheduler.ICCAScheduler.Sensible, Balanced, Tangle.Quiescent;
      SchedulerInOrder();
      scheduler.IncrementAccessMana();
      BalancedAfterTick(scheduler.quanta, scheduler.peer, ticks, created, sequenceNumber, old(scheduler.accessMana),
                        scheduler.accessMana);
      ticks := ticks + 1;
      scheduler.ServedWerePopped();
      NotServed(scheduler.popped, scheduler.served);
      turn, m := scheduler.ScheduleMessage();
      if old(scheduler.Backlog()) == {} {
        idle := idle + 1;
      }
      OnlyTicked();
    }

    lemma OneConfig()
      requires Quiescent()
      ensures Linked() && scheduler.storage == storage && scheduler.config == config && config.Sensible()
    {
      SchedulerInOrder();
    }

    lemma SchedulerInOrder()
      requires Quiescent()
      ensures Linked() && scheduler.storage == storage && scheduler.config == config
      ensures scheduler.Valid({}) && scheduler.Logged() && scheduler.Counted()
      ensures scheduler.Funded() && scheduler.Sensible() && Accounts()
    {
      hide Bookings, Approvals, Dated, Solidity, SolidIDs, IccaScheduler.ICCAScheduler.History,
        Opinions.OpinionManager.Valid, Opinions.OpinionManager.Settled, Solidifier.Overlooked, Solidifier.MissingSet,
        Listing.Tabled, Schedule.Counted, Buffers.Sorted, Storage.Storage.Valid, RoundRobin.Valid, Dag.WellFormed;
    }

    /** The marks of the scheduler are of no interest to the other parts. */
    twostate lemma OnlyTicked()
      requires old(Quiescent()) && Linked() && Accounts()
      requires scheduler.Valid({}) && scheduler.Logged() && scheduler.Counted() && scheduler.Funded()
      requires unchanged(solidifier) && unchanged(booker) && unchanged(approvalManager) && unchanged(opinions)
      requires unchanged(requester) && unchanged(storage`messageDB) && unchanged(storage`acceptedSlotDB)
      requires unchanged(storage`ATT) && unchanged(storage`footprint) && scheduler.enqueued == old(scheduler.enqueued)
      requires Buffers.OnlyMarked(old(storage.view), storage.view)
      ensures Quiescent() && solidifier.Events() == old(solidifier.Events())
    {
      hide Bookings, Approvals, Dated, Solidity, OnlyBooked, SolidIDs, Buffers.OnlyMarked,
        IccaScheduler.ICCAScheduler.Placed, IccaScheduler.ICCAScheduler.History, Opinions.OpinionManager.Valid,
        Opinions.OpinionManager.Settled, Solidifier.Overlooked, Solidifier.MissingSet, Listing.Tabled, Schedule.Counted;
      var db, view := storage.messageDB, old(storage.view);
      MarkingKeeps(db, view, storage.view, booker.booked, booker.invalid, scheduler.enqueued, opinions.peerOpinions);
      BookingKeeps(db, approvalManager.weights, approvalManager.config.nodesCount, approvalManager.Threshold(),
                   view, storage.view, solidifier.solidLog, approvalManager.approved, approvalManager.confirmedLog);
      BookedIsNoDate(config, storage.genesisTime, db, view, storage.view, approvalManager.confirmedLog,
                     Clock(storage.acceptedSlotDB, storage.ATT));
    }

    /** Asks what a message issued now would have to burn, and whether the own access mana is enough for that. */
    method BurnValue(issuanceTime: Time) returns (cost: real, ok: bool)
      requires Quiescent() && 0 <= scheduler.peer < config.nodesCount
      modifies storage`rmc, storage`slotDB, storage`touches
      ensures Quiescent()
      ensures var slot := Storage.SlotIndex(config, storage.genesisTime, issuanceTime);
        && cost == ManaCost.At(storage.rmc, slot) && slot in storage.slotDB && slot in storage.rmc
        && storage.touches == old(storage.touches)
             + [ManaCost.Asked(slot, Storage.Traffic(config, old(storage.slotDB), slot))]
      ensures |scheduler.accessMana| == config.nodesCount && (ok <==> scheduler.accessMana[scheduler.peer] >= cost)
    {
      hide Bookings, Approvals, Dated, Solidity, SolidIDs, IccaScheduler.ICCAScheduler.Placed,
        IccaScheduler.ICCAScheduler.History, Opinions.OpinionManager.Valid, Opinions.OpinionManager.Settled,
        Solidifier.Overlooked, Solidifier.MissingSet, Storage.Traffic, Listing.Tabled, Schedule.Counted;
      SchedulerInOrder();
      cost, ok := scheduler.BurnValue(issuanceTime);
    }

    /** Creates an own message, which costs the price of its slot, if the access mana is enough for that. */
    method CreateMessage(
      id: MessageID, validation: bool, payload: Color, strongParents: set<MessageID>, weakParents: set<MessageID>,
      issuanceTime: Time) returns (message: Message, ok: bool)
      requires Quiescent() && 0 <= scheduler.peer < config.nodesCount
      modifies `sequenceNumber, `created, scheduler`accessMana, storage`rmc, storage`slotDB, storage`touches
      ensures Quiescent() && |old(scheduler.accessMana)| == config.nodesCount
      ensures var slot := Storage.SlotIndex(config, storage.genesisTime, issuanceTime);
        var price := ManaCost.At(storage.rmc, slot);
        && slot in storage.rmc && (ok <==> old(scheduler.accessMana)[scheduler.peer] >= price)
        && (ok ==>
             && message == Message(validation, id, strongParents, weakParents, sequenceNumber, scheduler.peer, payload,
                                   issuanceTime, price)
             && sequenceNumber == old(sequenceNumber) + 1 && created == old(created) + [message]
             && scheduler.accessMana == old(scheduler.accessMana)[
                  scheduler.peer := old(scheduler.accessMana)[scheduler.peer] - price])
        && message.manaBurnValue == price
      ensures old(storage.touches) <= storage.touches
      ensures !ok ==> sequenceNumber == old(sequenceNumber) && created == old(created)
                      && scheduler.accessMana == old(scheduler.accessMana)
    {
      hide Tangle.Quiescent, Storage.Traffic;
      var burn, enough := BurnValue(issuanceTime);
      ok := enough;
      message := Message(validation, id, strongParents, weakParents, sequenceNumber + 1, scheduler.peer, payload,
                         issuanceTime, burn);
      if ok {
        Pay(message);
      }
    }

    /** Takes the next number and pays what the message burns. */
    method Pay(message: Message)
      requires Quiescent() && 0 <= scheduler.peer < |scheduler.accessMana| == config.nodesCount
      requires message.issuer == scheduler.peer && message.sequenceNumber == sequenceNumber + 1
      requires message.manaBurnValue <= scheduler.accessMana[scheduler.peer]
      modifies `sequenceNumber, `created, scheduler`accessMana
      ensures Quiescent() && sequenceNumber == old(sequenceNumber) + 1 && created == old(created) + [message]
      ensures scheduler.accessMana == old(scheduler.accessMana)[
        scheduler.peer := old(scheduler.accessMana)[scheduler.peer] - message.manaBurnValue]
    {
      hide Bookings, Approvals, Dated, Solidity, SolidIDs, IccaScheduler.ICCAScheduler.Valid, Balanced,
        IccaScheduler.ICCAScheduler.Counted, IccaScheduler.ICCAScheduler.Logged, Opinions.OpinionManager.Valid,
        Opinions.OpinionManager.Settled, Solidifier.Overlooked, Solidifier.MissingSet, Listing.Tabled;
      BalancedAfterPayment(scheduler.quanta, scheduler.peer, ticks, created, sequenceNumber, scheduler.accessMana,
                           message);
      var _ := scheduler.DecreaseNodeAccessMana(scheduler.peer, message.manaBurnValue);
      sequenceNumber, created := sequenceNumber + 1, created + [message];
    }

    /**
     Issues an own message: once it was created it is also stored, because its price cannot have changed meanwhile.
     */
    method IssueMessage(
      id: MessageID, validation: bool, payload: Color, strongParents: set<MessageID>, weakParents: set<MessageID>,
      issuanceTime: Time) returns (message: Message, ok: bool)
      requires Quiescent() && 0 <= scheduler.peer < config.nodesCount
      requires 0 < id && forall p :: p in strongParents + weakParents ==> GENESIS <= p < id
      modifies this, storage, storage.footprint, requester, opinions, scheduler, booker, approvalManager, solidifier
      ensures Quiescent() && Solidifier.Continues(old(solidifier.Events()), solidifier.Events())
      ensures ok && id !in old(storage.messageDB) ==> storage.messageDB == old(storage.messageDB)[id := message]
      ensures !ok || id in old(storage.messageDB) ==> storage.messageDB == old(storage.messageDB)
      ensures ok ==>
        && sequenceNumber == old(sequenceNumber) + 1
        && message == Message(validation, id, strongParents, weakParents, sequenceNumber, scheduler.peer, payload,
                              issuanceTime, message.manaBurnValue)
      ensures created == if ok then old(created) + [message] else old(created)
      ensures ticks == old(ticks) && fresh(storage.footprint - old(storage.footprint))
      ensures old(storage.touches) <= storage.touches
      ensures |old(scheduler.accessMana)| == config.nodesCount && message.manaBurnValue
          == ManaCost.At(storage.rmc, Storage.SlotIndex(config, storage.genesisTime, issuanceTime))
      ensures ok <==> old(scheduler.accessMana)[scheduler.peer] >= message.manaBurnValue
      ensures scheduler.accessMana == if !ok then old(scheduler.accessMana) else
        old(scheduler.accessMana)[scheduler.peer := old(scheduler.accessMana)[scheduler.peer] - message.manaBurnValue]
    {
      hide Tangle.Quiescent, Solidifier.Continues, Buffers.Flows, ManaCost.Run, Storage.Traffic, Storage.SlotIndex;
      OneConfig();
      Solidifier.NothingHappened(solidifier.Events());
      message, ok := CreateMessage(id, validation, payload, strongParents, weakParents, issuanceTime);
      if ok {
        ghost var touches, slots := storage.touches, storage.slotDB;
        PricesAreOfTouches();
        ghost var slot := Storage.SlotIndex(config, storage.genesisTime, issuanceTime);
        ManaCost.KnownPriceStays(config, touches, ManaCost.Stored(slot, Storage.Traffic(config, slots, slot)));
        ProcessMessage(message);
        PricesAreOfTouches();
        assert touches + [] == touches;
      }
    }

    /** Works off any inputs in any order: every run starts and ends with nothing left to be done. */
    method ProcessMessages(inputs: seq<Input>)
      requires Quiescent() && forall i :: 0 <= i < |inputs| ==> Fit(config, inputs[i])
      requires 0 <= scheduler.peer < config.nodesCount
      modifies this, storage, storage.footprint, requester, opinions, scheduler, booker, approvalManager, solidifier
      ensures Quiescent() && Solidifier.Continues(old(solidifier.Events()), solidifier.Events())
      ensures old(created) <= created
      ensures StoredFrom(old(storage.messageDB), storage.messageDB, inputs, created[|old(created)|..])
      ensures PaidAreStored(config, storage.genesisTime, storage.messageDB, inputs)
      ensures ticks == old(ticks) + TicksIn(inputs) && old(storage.touches) <= storage.touches && config.Sensible()
      ensures AsksAnswered(config, storage.genesisTime, inputs, storage.touches, |old(storage.touches)|)
      ensures fresh(storage.footprint - old(storage.footprint))
    {
      hide Solidifier.Overlooked, Solidifier.MissingSet, Solidifier.Continues, Solidifier.Solidifier.Valid, SolidIDs,
        Sound, Fit, StoredFrom, PaidAreStored, AsksAnswered, HighestPrice, ManaCost.Run, Balanced, IssueOf,
        Tangle.Quiescent, Tangle.Ticked, TicksIn, Storage.SlotIndex;
      Solidifier.NothingHappened(solidifier.Events());
      OneConfig();
      NothingDelivered(config, storage.genesisTime, storage.messageDB, inputs);
      NothingAsked(config, storage.genesisTime, inputs, storage.touches);
      ghost var own: seq<Message> := [];
      for i := 0 to |inputs|
        invariant Quiescent() && Solidifier.Continues(old(solidifier.Events()), solidifier.Events())
        invariant created == old(created) + own
        invariant StoredFrom(old(storage.messageDB), storage.messageDB, inputs[..i], own)
        invariant PaidAreStored(config, storage.genesisTime, storage.messageDB, inputs[..i])
        invariant ticks == old(ticks) + TicksIn(inputs[..i]) && old(storage.touches) <= storage.touches
        invariant AsksAnswered(config, storage.genesisTime, inputs[..i], storage.touches, |old(storage.touches)|)
        invariant fresh(storage.footprint - old(storage.footprint))
      {
        ghost var events, db, before, touches := solidifier.Events(), storage.messageDB, own, storage.touches;
        ghost var m, turn;
        m, own, turn := ProcessInput(inputs[i], own);
        OneMoreAnswer(config, storage.genesisTime, inputs, i, touches, storage.touches, |old(storage.touches)|);
        OneMoreInput(config, storage.genesisTime, old(storage.messageDB), db, storage.messageDB, inputs, i, before, own,
                     m);
        Solidifier.HistoryGoesOn(old(solidifier.Events()), events, solidifier.Events());
      }
      assert inputs[..|inputs|] == inputs;
    }

    /** Works off one input. */
    method ProcessInput(input: Input, ghost own: seq<Message>)
      returns (ghost m: Message, ghost own': seq<Message>, ghost turn: RoundRobin.Turn)
      requires Quiescent() && Fit(config, input) && 0 <= scheduler.peer < config.nodesCount && config.Sensible()
      modifies this, storage, storage.footprint, requester, opinions, scheduler, booker, approvalManager, solidifier
      ensures Quiescent() && Solidifier.Continues(old(solidifier.Events()), solidifier.Events())
      ensures storage.messageDB == old(storage.messageDB)
           || (m.id !in old(storage.messageDB) && storage.messageDB == old(storage.messageDB)[m.id := m])
      ensures own' == own || (own' == own + [m] && m.id in storage.messageDB)
      ensures created == old(created) + own'[|own|..] && own <= own'
      ensures own' != own ==> input == IssueOf(m)
      ensures storage.messageDB != old(storage.messageDB) ==> input == Deliver(m) || own' == own + [m]
      ensures input.Deliver? ==>
        && input.message == m
        && (m.id in storage.messageDB <==> m.id in old(storage.messageDB) || Affordable(m))
      ensures input.Issue? ==>
        && |old(scheduler.accessMana)| == config.nodesCount
        && m.manaBurnValue == ManaCost.At(
             storage.rmc, Storage.SlotIndex(config, storage.genesisTime, input.issuanceTime))
        && (own' == own + [m] <==> old(scheduler.accessMana)[scheduler.peer] >= m.manaBurnValue)
      ensures input.Tick? ==> Ticked(turn, m)
      ensures ticks == old(ticks) + if input.Tick? then 1 else 0
      ensures old(storage.touches) <= storage.touches
      ensures input.AskCost? ==>
        AskedSince(storage.touches, |old(storage.touches)|,
                   Storage.SlotIndex(config, storage.genesisTime, input.issuanceTime))
      ensures input.Retry? ==>
        && requester.queuedElements == old(requester.queuedElements)
        && requester.sent == old(requester.sent) + if input.id in requester.queuedElements then [input.id] else []
      ensures input.Deliver? && m.manaBurnValue >= HighestPrice(config, storage.genesisTime, m) ==>
        m.id in storage.messageDB
      ensures fresh(storage.footprint - old(storage.footprint))
    {
      hide Solidifier.Overlooked, Solidifier.MissingSet, Solidifier.Continues, Solidifier.Solidifier.Valid, SolidIDs,
        Sound, HighestPrice, ManaCost.Run, Balanced, Tangle.Quiescent;
      Solidifier.NothingHappened(solidifier.Events());
      OneConfig();
      m, own', turn := *, own, RoundRobin.Turn({}, 0, 0.0);
      match input {
        case Deliver(message) =>
          m := message;
          ProcessPaid(message);
        case Issue(id, validation, payload, strongParents, weakParents, issuanceTime) =>
          var message, ok := IssueMessage(id, validation, payload, strongParents, weakParents, issuanceTime);
          m := message;
          own' := if ok then own + [m] else own;
        case Tick =>
          turn, m := ScheduleMessage();
        case AskCost(issuanceTime) =>
          var cost, ok := BurnValue(issuanceTime);
          assert storage.touches[|old(storage.touches)|].Asked?;
        case Retry(id) =>
          RetryRequest(id);
      }
    }

    method RetryRequest(id: MessageID)
      requires Quiescent()
      modifies requester
      ensures Quiescent() && requester.queuedElements == old(requester.queuedElements)
      ensures requester.sent == old(requester.sent) + if id in requester.queuedElements then [id] else []
    {
      hide Bookings, Approvals, Dated, Solidity, SolidIDs, IccaScheduler.ICCAScheduler.Valid, Solidifier.Overlooked,
        Solidifier.MissingSet, Solidifier.Solidifier.Valid, Balanced;
      requester.Retry(id);
    }

    /** Whoever burns the highest price of the slot is stored. */
    method ProcessPaid(message: Message)
      requires Quiescent() && Sound(config, message) && config.Sensible()
      modifies storage, storage.footprint, requester, opinions, scheduler, booker, approvalManager, solidifier
      ensures Quiescent() && Solidifier.Continues(old(solidifier.Events()), solidifier.Events())
      ensures storage.messageDB == if message.id !in old(storage.messageDB) && Affordable(message)
                                   then old(storage.messageDB)[message.id := message] else old(storage.messageDB)
      ensures message.manaBurnValue >= HighestPrice(config, storage.genesisTime, message) ==>
        message.id in storage.messageDB
      ensures scheduler.served == old(scheduler.served) && scheduler.accessMana == old(scheduler.accessMana)
      ensures Buffers.Flows(config.maxBuffer, old(scheduler.Flow()), scheduler.Flow())
      ensures old(storage.touches) <= storage.touches
      ensures fresh(storage.footprint - old(storage.footprint))
    {
      hide Solidifier.Continues, Sound, Buffers.Flows, ManaCost.Run, Storage.Traffic, ManaCost.Highest,
        Tangle.Quiescent;
      ghost var before, slots := storage.touches, storage.slotDB;
      ProcessMessage(message);
      if message.id !in old(storage.messageDB) {
        PricesAreOfTouches();
        ghost var slot := Storage.SlotIndex(config, storage.genesisTime, message.issuanceTime);
        ManaCost.HighestPays(config, before, slot, Storage.Traffic(config, slots, slot));
      }
    }

    /** Stores a message, or not; the other parts do not notice. */
    method Store(message: Message) returns (stored: bool)
      requires Valid() && Sound(config, message)
      modifies storage
      ensures Valid() && solidifier.Solids() == old(solidifier.Solids())
      ensures storage.messageDB
         == if stored then old(storage.messageDB)[message.id := message] else old(storage.messageDB)
      ensures stored <==> message.id !in old(storage.messageDB) && Affordable(message)
      ensures Touched(old(storage.touches), old(storage.slotDB), message, message.id !in old(storage.messageDB))
      ensures fresh(storage.footprint - old(storage.footprint))
    {
      hide Bookings, Approvals, Dated, Solidity, OneMoreStored, SolidIDs, IccaScheduler.ICCAScheduler.Placed,
        IccaScheduler.ICCAScheduler.History, Storage.Storage.Valid, Dag.WellFormed, Storage.ChildrenIndexed,
        Opinions.OpinionManager.Valid, Opinions.OpinionManager.Settled, Storage.Traffic, Listing.Tabled,
        Schedule.Counted, Buffers.SolidHasParents, Buffers.NothingNewEligible, Dag.WellFormedMessage;
      ghost var db, view, n := storage.messageDB, storage.view, config.nodesCount;
      label before:
      scheduler.StorageInOrder({});
      scheduler.ParentsInOrder();
      stored := storage.Store(message);
      if stored {
        JustStored(db, view, n, message, storage.view);
        StoringIsNoNews(db, storage.messageDB, n, view, storage.view, message);
        scheduler.StorageChanged@before({});
        StoringKeepsSolidity(db, storage.messageDB, n, view, storage.view, message, solidifier.solidLog);
        StoringKeepsBookings(db, storage.messageDB, n, view, storage.view, message, booker.booked, booker.invalid,
                             scheduler.enqueued, opinions.peerOpinions);
        BookedIsClosed(db, view, booker.booked, booker.invalid, scheduler.enqueued, opinions.peerOpinions);
        Listing.StoringKeepsTable(db, storage.messageDB, booker.booked, booker.bookedLog, opinions.peerOpinions,
                                  opinions.approvalWeights.Keys);
        Schedule.CountedKept(db, storage.messageDB, scheduler.peer, scheduler.spamming, scheduler.scheduledLog,
                             scheduler.enqueued, scheduler.popped, scheduler.served);
        StoringKeepsApprovals(db, storage.messageDB, approvalManager.weights, n, approvalManager.Threshold(),
                              view, storage.view, message, approvalManager.approved, approvalManager.confirmedLog);
        DatedStored(config, storage.genesisTime, db, storage.messageDB, n, view, storage.view, message,
                    approvalManager.confirmedLog, Clock(storage.acceptedSlotDB, storage.ATT));
      } else {
        IccaScheduler.NothingNew(db, view, config.confEligible);
        scheduler.StorageChanged@before({});
      }
    }
  }

  /** Two nodes that stored the same messages agree on all that follows from these, whatever inputs they worked off. */
  lemma NodesAgree(a: Tangle, b: Tangle)
    requires a.Quiescent() && b.Quiescent()
    requires a.opinions.weights == b.opinions.weights && a.config.nodesCount == b.config.nodesCount
    requires a.storage.messageDB == b.storage.messageDB && Voting.Numbered(a.storage.messageDB)
    ensures Convergence.Agree(a.config.nodesCount, a.Snapshot(), b.Snapshot())
    ensures Listing.Weighty(a.opinions.weights, a.config.nodesCount, a.storage.messageDB,
                            Dag.SolidSet(a.storage.messageDB))
       ==> a.opinions.ownOpinion == b.opinions.ownOpinion
    ensures Listing.Determined(a.storage.messageDB, Dag.SolidSet(a.storage.messageDB))
       ==> a.opinions.ownOpinion == b.opinions.ownOpinion
  {
    a.RecordsAreExact();
    b.RecordsAreExact();
    hide Convergence.Settled, Convergence.Agree, Voting.Numbered, Listing.Weighty, Listing.Determined,
      Tangle.Quiescent;
    var w, n, db := a.opinions.weights, a.config.nodesCount, a.storage.messageDB;
    Convergence.OrderDoesNotMatter(w, n, a.Snapshot(), b.Snapshot());
    if Listing.Weighty(w, n, db, Dag.SolidSet(db)) {
      Convergence.WeightDecides(w, n, a.Snapshot(), b.Snapshot());
    }
    if Listing.Determined(db, Dag.SolidSet(db)) {
      Convergence.MessagesDecide(w, n, a.Snapshot(), b.Snapshot());
    }
  }

  lemma NotServed(popped: set<MessageID>, served: set<MessageID>)
    requires served <= popped
    ensures forall id :: id !in popped ==> |served + {id}| == |served| + 1
  {
  }

  lemma NothingAsked(config: Config, genesisTime: Time, inputs: seq<Input>, touches: seq<ManaCost.Touch>)
    requires config.Sensible()
    ensures AsksAnswered(config, genesisTime, inputs[..0], touches, |touches|) && TicksIn(inputs[..0]) == 0
  {
  }

  lemma BookedIsClosed(
    db: Dag.Ledger, view: Buffers.View, booked: set<MessageID>, invalid: set<MessageID>, enqueued: set<MessageID>,
    votes: Opinions.Votes)
    requires Bookings(db, view, booked, invalid, enqueued, votes)
    ensures Dag.Closed(db, booked)
  {
  }

  lemma JustStored(db: Dag.Ledger, view: Buffers.View, n: nat, m: Message, view': Buffers.View)
    requires m.id !in db && Dag.WellFormedMessage(m) && db.Keys == view.Keys && view'.Keys == view.Keys + {m.id}
    requires forall id :: id in view && id != m.id ==> view'[id] == view[id]
    requires var r := view'[m.id];
      && r == Record(false, false, UNDEFINED, r.weightSlice, 0, false, r.orphaned, false)
      && |r.weightSlice| == SliceLength(n) && Witnesses(r.weightSlice, n) == {}
    ensures OneMoreStored(db, db[m.id := m], n, view, view', m)
  {
  }

  /** A new record is of no interest to the scheduler. */
  lemma StoringIsNoNews(db: Dag.Ledger, db': Dag.Ledger, n: nat, view: Buffers.View, view': Buffers.View, m: Message)
    requires OneMoreStored(db, db', n, view, view', m) && Buffers.SolidHasParents(db, view)
    ensures Dag.Extends(db, db') && Buffers.SolidHasParents(db', view')
    ensures forall confEligible: bool :: Buffers.NothingNewEligible(view, view', confEligible)
    ensures forall id :: id in view && view[id].solid ==> view'[id].solid
  {
  }
}
