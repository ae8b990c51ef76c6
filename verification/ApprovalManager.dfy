/** The walk that marks the past cone of a validation block (multiverse/approvalweight_manager.go). */
module ApprovalManager {
  import opened Messages
  import opened Parameters
  import opened Metadata
  import opened PeerWeights
  import opened Witnessing
  import opened Pipeline
  import Buffers
  import Dag
  import IccaScheduler
  import Storage
  import Walker

  class ApprovalManager {
    const config: Config
    const weights: Weights
    const totalWeight: nat
    const storage: Storage.Storage
    const scheduler: IccaScheduler.ICCAScheduler
    ghost var approved: set<MessageID>       // the messages that were approved
    ghost var confirmedLog: seq<MessageID>   // the confirmations that were announced

    ghost function Threshold(): real {
      config.confirmationThreshold * Sum(weights, weights.Keys, config.nodesCount) as real
    }

    ghost predicate Linked()
      reads storage
    {
      && scheduler.storage == storage && scheduler.config == config && storage.config == config
      && totalWeight == Sum(weights, weights.Keys, config.nodesCount)
      && this !in storage.footprint && scheduler !in storage.footprint && storage !in storage.footprint
    }

    ghost predicate Valid()
      reads this, storage, storage.footprint, scheduler
    {
      && Linked() && scheduler.Valid({})
      && Approvals(storage.messageDB, weights, config.nodesCount, Threshold(), storage.view, approved, confirmedLog)
      && Timely()
    }

    /** The times of confirmed and orphaned messages are in order. */
    ghost predicate Timely()
      reads this`confirmedLog, storage
    {
      Dated(config, storage.genesisTime, storage.messageDB, storage.view, confirmedLog,
            Clock(storage.acceptedSlotDB, storage.ATT))
    }

    /** Records are in order and confirmations announced, as they are between visits of the walk. */
    ghost predicate Walkable()
      reads this, storage, storage.footprint, scheduler
    {
      && Linked() && scheduler.Valid({})
      && InOrder(weights, config.nodesCount, Threshold(), storage.view) && Announced(storage.view, confirmedLog)
      && Timely()
    }

    constructor (config: Config, weights: Weights, totalWeight: nat, scheduler: IccaScheduler.ICCAScheduler)
      requires scheduler.Valid({}) && scheduler.config == config && scheduler.storage.messageDB == map[]
      requires scheduler.storage.acceptedSlotDB == map[] && scheduler.storage.ATT == scheduler.storage.genesisTime
      requires totalWeight == Sum(weights, weights.Keys, config.nodesCount)
      ensures Valid() && approved == {} && confirmedLog == []
      ensures this.config == config && this.weights == weights
      ensures this.scheduler == scheduler && storage == scheduler.storage
    {
      this.config, this.weights, this.totalWeight := config, weights, totalWeight;
      this.scheduler, storage := scheduler, scheduler.storage;
      approved, confirmedLog := {}, [];
    }

    /** Sets the bit of a peer and adds its weight. */
    method AddWitness(y: MessageID, issuer: PeerID)
      requires Linked() && scheduler.Valid({}) && y in storage.messageDB && 0 <= issuer < config.nodesCount
      requires |storage.view[y].weightSlice| == SliceLength(config.nodesCount)
      modifies storage`view, storage.footprint
      ensures Linked() && scheduler.Valid({})
      ensures storage.view == WithWitness(old(storage.view), y, issuer, WeightOf(weights, issuer))
    {
      label before:
      hide IccaScheduler.ICCAScheduler.Placed, IccaScheduler.ICCAScheduler.History, Storage.Storage.Valid,
        Dag.WellFormed, Storage.ChildrenIndexed, Buffers.SolidHasParents, Dated, WellJudged;
      scheduler.StorageInOrder({});
      scheduler.ParentsInOrder();
      var weightByte := storage.MetadataOf(y).weightSlice[issuer / 8];
      storage.SetWeightByte(y, issuer / 8, weightByte | Mask(issuer % 8));
      storage.AddWeight(y, WeightOf(weights, issuer));
      WitnessAdded(old(storage.view), y, issuer, WeightOf(weights, issuer), storage.view);
      NothingElse(old(storage.view), y, issuer, WeightOf(weights, issuer), config.confEligible);
      Buffers.SolidityKept(storage.messageDB, old(storage.view), storage.view);
      hide WithWitness, Dated, WellJudged;
      scheduler.StorageChanged@before({});
    }

    /** Marks a message and follows its parents, unless the bit of the peer is set already. */
    method Visit(y: MessageID, issuer: PeerID, walker: Walker.Walker) returns (ghost marked: bool)
      requires Walkable() && y in storage.messageDB && 0 <= issuer < config.nodesCount
      requires walker.Valid() && walker !in storage.footprint
      modifies walker, this`confirmedLog, storage`view, storage.footprint, storage`acceptedSlotDB, storage`ATT
      modifies scheduler`nonReadyMap, scheduler`issuerQueues, scheduler`readyLen
      ensures Walkable() && OnlyApproved(old(storage.view), storage.view)
      ensures old(confirmedLog) <= confirmedLog && storage.ATT >= old(storage.ATT)
      ensures WellJudged(config, storage.messageDB, Threshold(), old(storage.ATT), storage.ATT, old(storage.view),
                         storage.view)
      ensures marked == (issuer !in Bits(config.nodesCount, old(storage.view), y))
      ensures BitAdded(config.nodesCount, old(storage.view), storage.view, issuer, if marked then {y} else {})
      ensures y in storage.view && storage.view[y].weight
        == old(storage.view)[y].weight + if marked then WeightOf(weights, issuer) else 0
      ensures OneJudged(
        old(storage.view), storage.view, y,
        marked && storage.view[y].weight as real >= config.confirmationThreshold * totalWeight as real,
        storage.messageDB[y].issuanceTime + config.minCommittableAge * config.slowdownFactor < old(storage.ATT))
      ensures forall m :: m in storage.view ==> storage.view[m].weight <= totalWeight
      ensures var parents := if marked then storage.messageDB[y].Parents() else {};
        && walker.Valid() && walker.pushed == old(walker.pushed) + parents
        && walker.pending == old(walker.pending) + (parents - old(walker.pushed))
      ensures scheduler.nonReadyMap.Keys <= old(scheduler.nonReadyMap).Keys
    {
      hide IccaScheduler.ICCAScheduler.Placed, IccaScheduler.ICCAScheduler.History, Storage.Storage.Valid,
        Dag.WellFormed, Storage.ChildrenIndexed, WithWitness, JudgedBut, OnlyJudged, OnlyApproved, Announced, Weighed,
        Judged, SetBit, Dated, WellJudged, OneJudged;
      scheduler.StorageInOrder({});
      marked := !BitSet(storage.MetadataOf(y).weightSlice, issuer);
      if !BitSet(storage.MetadataOf(y).weightSlice, issuer) {
        WitnessCounts(weights, config.nodesCount, Threshold(), storage.view, y, issuer);
        AddWitness(y, issuer);
        ghost var witnessed := storage.view;
        WitnessIsNoDate(config, storage.genesisTime, storage.messageDB, old(storage.view), y, issuer,
                        WeightOf(weights, issuer), confirmedLog, Clock(storage.acceptedSlotDB, storage.ATT));
        Announcing(old(storage.view), y, issuer, WeightOf(weights, issuer), confirmedLog);
        Judge(y);
        Visited(config.nodesCount, old(storage.view), y, issuer, WeightOf(weights, issuer), storage.view);
        JudgedAfterwards(
          config, storage.messageDB, Threshold(), old(storage.ATT), storage.ATT, old(storage.view), y, issuer,
          WeightOf(weights, issuer), storage.view,
          storage.view[y].weight as real >= config.confirmationThreshold * totalWeight as real,
          storage.messageDB[y].issuanceTime + config.minCommittableAge * config.slowdownFactor < old(storage.ATT));
        walker.PushAll(storage.messageDB[y].strongParents);
        walker.PushAll(storage.messageDB[y].weakParents);
      } else {
        NotVisited(config.nodesCount, storage.view, issuer);
        NobodyJudged(storage.view, y, storage.TooOld(storage.messageDB[y]));
        NothingJudgedYet(config, storage.messageDB, Threshold(), storage.ATT, storage.view);
      }
      WeightsFit();
    }

    /** No sum of weights exceeds the total of all peers, so none wraps where that fits 64 bits. */
    lemma WeightsFit()
      requires Walkable()
      ensures forall m :: m in storage.view ==> storage.view[m].weight <= totalWeight
    {
      hide IccaScheduler.ICCAScheduler.Placed, IccaScheduler.ICCAScheduler.History, Dated, Announced, Judged;
      forall m | m in storage.view
        ensures storage.view[m].weight <= totalWeight
      {
        assert Weighed(weights, config.nodesCount, storage.view[m]);
        WeightWithinTotal(weights, config.nodesCount, storage.view[m]);
      }
    }

    /** Approves a solid message: a validation block marks its past cone, down to what its issuer marked before. */
    method ApproveMessages(id: MessageID)
      requires Valid() && id in storage.messageDB && id !in approved
      requires Dag.ParentsIn(storage.messageDB, id, approved)
      modifies this, storage`view, storage.footprint, storage`acceptedSlotDB, storage`ATT
      modifies scheduler`nonReadyMap, scheduler`issuerQueues, scheduler`readyLen
      ensures Valid() && approved == old(approved) + {id} && OnlyApproved(old(storage.view), storage.view)
      ensures old(confirmedLog) <= confirmedLog && storage.ATT >= old(storage.ATT)
      ensures WellJudged(config, storage.messageDB, Threshold(), old(storage.ATT), storage.ATT, old(storage.view),
                         storage.view)
      ensures scheduler.nonReadyMap.Keys <= old(scheduler.nonReadyMap).Keys
    {
      hide IccaScheduler.ICCAScheduler.Placed, IccaScheduler.ICCAScheduler.History, Storage.Storage.Valid,
        Dag.WellFormed, Storage.ChildrenIndexed, OnlyApproved, Approvals, Dag.Closed, Dag.ParentsIn, InOrder, Announced,
        WitnessesExact, Dated, WellJudged;
      scheduler.StorageInOrder({});
      ApprovalBegins(storage.messageDB, weights, config.nodesCount, Threshold(), storage.view, approved, confirmedLog,
                     id);
      if storage.messageDB[id].validation {
        Walk(id);
      } else {
        NoValidation(storage.messageDB, config.nodesCount, storage.view, approved, id);
        NothingApproved(storage.view);
        NothingJudgedYet(config, storage.messageDB, Threshold(), storage.ATT, storage.view);
      }
      approved := approved + {id};
      ApprovalEnds(storage.messageDB, weights, config.nodesCount, Threshold(), storage.view, approved, confirmedLog);
    }

    method Walk(id: MessageID)
      requires Walkable() && id in storage.messageDB && storage.messageDB[id].validation
      requires WitnessesExact(storage.messageDB, config.nodesCount, storage.view, approved)
      requires Dag.Closed(storage.messageDB, approved + {id})
      modifies this`confirmedLog, storage`view, storage.footprint, storage`acceptedSlotDB, storage`ATT
      modifies scheduler`nonReadyMap, scheduler`issuerQueues, scheduler`readyLen
      ensures Walkable() && OnlyApproved(old(storage.view), storage.view)
      ensures old(confirmedLog) <= confirmedLog && storage.ATT >= old(storage.ATT)
      ensures WellJudged(config, storage.messageDB, Threshold(), old(storage.ATT), storage.ATT, old(storage.view),
                         storage.view)
      ensures WitnessesExact(storage.messageDB, config.nodesCount, storage.view, approved + {id})
      ensures scheduler.nonReadyMap.Keys <= old(scheduler.nonReadyMap).Keys
    {
      hide IccaScheduler.ICCAScheduler.Placed, IccaScheduler.ICCAScheduler.History, Storage.Storage.Valid,
        Dag.WellFormed, Storage.ChildrenIndexed, InOrder, Announced, BitAdded, Walking, OnlyApproved, Dag.Closed,
        WitnessesExact, Dated, WellJudged;
      scheduler.StorageInOrder({});
      scheduler.IssuerInRange(id);
      ghost var db, view0, n := storage.messageDB, storage.view, config.nodesCount;
      var issuer := storage.messageDB[id].issuer;
      var walker := new Walker.Walker(id);
      ghost var done: set<MessageID> := {};
      WalkStarts(db, n, view0, approved, issuer, id);
      NothingApproved(view0);
      NothingJudgedYet(config, db, Threshold(), storage.ATT, view0);
      while walker.HasNext()
        invariant Walkable() && walker.Valid() && fresh(walker)
        invariant OnlyApproved(view0, storage.view)
        invariant old(confirmedLog) <= confirmedLog && storage.ATT >= old(storage.ATT)
        invariant WellJudged(config, db, Threshold(), old(storage.ATT), storage.ATT, view0, storage.view)
        invariant scheduler.nonReadyMap.Keys <= old(scheduler.nonReadyMap).Keys
        invariant Walking(db, n, view0, storage.view, issuer, id, walker.pushed, walker.pending, done)
        decreases db.Keys + {GENESIS} - (walker.pushed - walker.pending)
      {
        ghost var view, att := storage.view, storage.ATT;
        done := WalkOn(id, issuer, walker, view0, approved + {id}, done);
        MoreJudged(config, db, Threshold(), old(storage.ATT), att, storage.ATT, view0, view, storage.view);
        ApprovedTwice(view0, view, storage.view);
      }
      WalkEnds(db, n, view0, storage.view, approved, id, walker.pushed, done);
    }

    /** Visits one of the pending messages. */
    method WalkOn(
      id: MessageID, issuer: PeerID, walker: Walker.Walker,
      ghost view0: View, ghost s: set<MessageID>, ghost done: set<MessageID>)
      returns (ghost done': set<MessageID>)
      requires Walkable() && 0 <= issuer < config.nodesCount && Dag.Closed(storage.messageDB, s) && id in s
      requires walker.Valid() && walker.HasNext() && walker !in storage.footprint
      requires Walking(storage.messageDB, config.nodesCount, view0, storage.view, issuer, id,
                       walker.pushed, walker.pending, done)
      modifies walker, this`confirmedLog, storage`view, storage.footprint, storage`acceptedSlotDB, storage`ATT
      modifies scheduler`nonReadyMap, scheduler`issuerQueues, scheduler`readyLen
      ensures Walkable() && walker.Valid() && OnlyApproved(old(storage.view), storage.view)
      ensures old(confirmedLog) <= confirmedLog && storage.ATT >= old(storage.ATT)
      ensures WellJudged(config, storage.messageDB, Threshold(), old(storage.ATT), storage.ATT, old(storage.view),
                         storage.view)
      ensures Walking(storage.messageDB, config.nodesCount, view0, storage.view, issuer, id,
                      walker.pushed, walker.pending, done')
      ensures storage.messageDB.Keys + {GENESIS} - (walker.pushed - walker.pending)
            < storage.messageDB.Keys + {GENESIS} - old(walker.pushed - walker.pending)
      ensures scheduler.nonReadyMap.Keys <= old(scheduler.nonReadyMap).Keys
    {
      hide IccaScheduler.ICCAScheduler.Placed, IccaScheduler.ICCAScheduler.History, Storage.Storage.Valid,
        Dag.WellFormed, Storage.ChildrenIndexed, InOrder, Announced, BitAdded, Walking, Bits, OnlyApproved, Dag.Closed,
        Dated, WellJudged;
      scheduler.StorageInOrder({});
      ghost var db, n, view := storage.messageDB, config.nodesCount, storage.view;
      ghost var seen, pending := walker.pushed, walker.pending;
      NothingApproved(view);
      NothingJudgedYet(config, db, Threshold(), storage.ATT, view);
      var y := walker.Next();
      done' := done;
      if y != GENESIS {
        WalkStaysInside(db, n, view0, view, issuer, id, seen, pending, done, s, y);
        ghost var marked := Visit(y, issuer, walker);
        WalkSteps(db, n, view0, view, storage.view, issuer, id, seen, pending, done, y, marked);
        done' := done + if marked then {y} else {};
      } else {
        WalkSkips(db, n, view0, view, issuer, id, seen, pending, done, y);
      }
      FewerToVisit(db, seen, pending, y, walker.pushed, walker.pending);
    }

    /** Confirms or orphans a message that reached the threshold. */
    method Judge(y: MessageID)
      requires Linked() && scheduler.Valid({}) && y in storage.messageDB && Announced(storage.view, confirmedLog)
      requires JudgedBut(weights, config.nodesCount, Threshold(), storage.view, y) && Timely()
      modifies this`confirmedLog, storage`view, storage.footprint, storage`acceptedSlotDB, storage`ATT
      modifies scheduler`nonReadyMap, scheduler`issuerQueues, scheduler`readyLen
      ensures Walkable() && OnlyJudged(old(storage.view), storage.view)
      ensures old(confirmedLog) <= confirmedLog && storage.ATT >= old(storage.ATT)
      ensures WellJudged(config, storage.messageDB, Threshold(), old(storage.ATT), storage.ATT, old(storage.view),
                         storage.view)
      ensures scheduler.nonReadyMap.Keys <= old(scheduler.nonReadyMap).Keys
      // a message that reached the threshold is orphaned if it was issued too long before the accepted tangle time
      ensures y in storage.view && OneJudged(
        old(storage.view), storage.view, y,
        storage.view[y].weight as real >= config.confirmationThreshold * totalWeight as real,
        storage.messageDB[y].issuanceTime + config.minCommittableAge * config.slowdownFactor < old(storage.ATT))
    {
      hide IccaScheduler.ICCAScheduler.Placed, IccaScheduler.ICCAScheduler.History, Storage.Storage.Valid,
        Dag.WellFormed, Storage.ChildrenIndexed, JudgedBut, InOrder, OnlyJudged, Announced, Buffers.OnlyReadied, Dated,
        WellJudged;
      scheduler.StorageInOrder({});
      var r := storage.MetadataOf(y);
      if r.weight as real >= config.confirmationThreshold * totalWeight as real && !r.confirmed && !r.orphaned {
        if storage.TooOld(storage.messageDB[y]) {
          Orphan(y);
          Orphaned(config, weights, Threshold(), storage.messageDB, old(storage.view), y, confirmedLog, storage.ATT);
        } else {
          Confirm(y);
          Confirmed(config, weights, Threshold(), storage.messageDB, old(storage.view), storage.view, y,
                    old(confirmedLog), old(storage.ATT), storage.ATT);
        }
      } else {
        NothingToJudge(weights, config.nodesCount, Threshold(), storage.view, y,
                       storage.TooOld(storage.messageDB[y]));
        NothingJudgedYet(config, storage.messageDB, Threshold(), storage.ATT, storage.view);
      }
    }

    method Orphan(y: MessageID)
      requires Linked() && scheduler.Valid({}) && y in storage.messageDB
      requires Timely() && storage.TooOld(storage.messageDB[y])
      modifies storage`view, storage.footprint
      ensures Linked() && scheduler.Valid({}) && Timely()
      ensures storage.view == old(storage.view)[y := old(storage.view)[y].(orphaned := true)]
    {
      hide IccaScheduler.ICCAScheduler.Placed, IccaScheduler.ICCAScheduler.History, Storage.Storage.Valid,
        Dag.WellFormed, Storage.ChildrenIndexed, Buffers.SolidHasParents, Dated;
      scheduler.StorageInOrder({});
      scheduler.ParentsInOrder();
      label before:
      storage.SetOrphaned(y);
      Buffers.SolidityKept(storage.messageDB, old(storage.view), storage.view);
      scheduler.StorageChanged@before({});
      DatedOrphan(config, storage.genesisTime, storage.messageDB, old(storage.view), confirmedLog,
                  Clock(storage.acceptedSlotDB, storage.ATT), y);
    }

    method Confirm(y: MessageID)
      requires Linked() && scheduler.Valid({}) && y in storage.messageDB && Timely()
      modifies this`confirmedLog, storage`view, storage.footprint, storage`acceptedSlotDB, storage`ATT
      modifies scheduler`nonReadyMap, scheduler`issuerQueues, scheduler`readyLen
      ensures Linked() && scheduler.Valid({}) && Timely() && confirmedLog == old(confirmedLog) + [y]
      ensures Buffers.OnlyReadied(old(storage.view)[y := old(storage.view)[y].(confirmed := true)], storage.view)
      ensures storage.ATT >= old(storage.ATT)
      ensures scheduler.nonReadyMap.Keys <= old(scheduler.nonReadyMap).Keys
    {
      hide IccaScheduler.ICCAScheduler.Placed, IccaScheduler.ICCAScheduler.History, Storage.Storage.Valid,
        Dag.WellFormed, Storage.ChildrenIndexed, Buffers.SolidHasParents, Buffers.OnlyReadied, Dated;
      scheduler.StorageInOrder({});
      Dag.StoredIsWellFormed(storage.messageDB, y);
      label before:
      storage.SetConfirmed(y);
      scheduler.Confirmed@before(y);
      confirmedLog := confirmedLog + [y];
      scheduler.MessageConfirmed(y);
      DatedConfirmed(config, storage.genesisTime, storage.messageDB, old(storage.view), storage.view, old(confirmedLog),
                     old(Clock(storage.acceptedSlotDB, storage.ATT)), Clock(storage.acceptedSlotDB, storage.ATT), y);
    }
  }

  lemma WitnessAdded(view: View, y: MessageID, issuer: nat, weight: nat, view': View)
    requires y in view && issuer / 8 < |view[y].weightSlice|
    requires var slice := view[y].weightSlice;
      var r := view[y].(weightSlice := slice[issuer / 8 := slice[issuer / 8] | Mask(issuer % 8)]);
      view' == view[y := r][y := r.(weight := r.weight + weight)]
    ensures view' == WithWitness(view, y, issuer, weight)
  {
  }

  lemma NothingElse(view: View, y: MessageID, issuer: nat, weight: nat, confEligible: bool)
    requires y in view && issuer / 8 < |view[y].weightSlice|
    ensures var view' := WithWitness(view, y, issuer, weight);
      && Buffers.NothingNewEligible(view, view', confEligible)
      && view'.Keys == view.Keys && forall m :: m in view ==> view'[m].solid == view[m].solid
  {
    assert WithWitness(view, y, issuer, weight).Keys == view.Keys;
  }

  lemma ApprovedTwice(a: View, b: View, c: View)
    requires OnlyApproved(a, b) && OnlyApproved(b, c)
    ensures OnlyApproved(a, c)
  {
  }

  lemma NothingApproved(view: View)
    ensures OnlyApproved(view, view)
  {
  }

  lemma ApprovalBegins(
    db: Dag.Ledger, w: Weights, n: nat, threshold: real, view: View, approved: set<MessageID>, log: seq<MessageID>,
    id: MessageID)
    requires Approvals(db, w, n, threshold, view, approved, log) && id in db && Dag.ParentsIn(db, id, approved)
    ensures Dag.Closed(db, approved + {id}) && WitnessesExact(db, n, view, approved)
    ensures InOrder(w, n, threshold, view) && Announced(view, log)
  {
  }

  lemma ApprovalEnds(
    db: Dag.Ledger, w: Weights, n: nat, threshold: real, view: View, approved: set<MessageID>, log: seq<MessageID>)
    requires Dag.Closed(db, approved) && WitnessesExact(db, n, view, approved)
    requires InOrder(w, n, threshold, view) && Announced(view, log)
    ensures Approvals(db, w, n, threshold, view, approved, log)
  {
  }

  lemma FewerToVisit(
    db: Dag.Ledger, seen: set<MessageID>, pending: set<MessageID>, y: MessageID,
    seen': set<MessageID>, pending': set<MessageID>)
    requires y in pending && pending <= seen && seen <= seen' && seen' * pending' <= pending - {y} + (seen' - seen)
    requires y == GENESIS || y in db
    ensures db.Keys + {GENESIS} - (seen' - pending') < db.Keys + {GENESIS} - (seen - pending)
  {
    var before, after := db.Keys + {GENESIS} - (seen - pending), db.Keys + {GENESIS} - (seen' - pending');
    assert y in before && y !in after;
    assert after <= before;
  }

  /** Marking announces nothing. */
  lemma Announcing(view: View, y: MessageID, issuer: nat, weight: nat, log: seq<MessageID>)
    requires Announced(view, log) && y in view && issuer / 8 < |view[y].weightSlice|
    ensures Announced(WithWitness(view, y, issuer, weight), log)
  {
  }

  lemma Visited(n: nat, view: View, y: MessageID, issuer: nat, weight: nat, view': View)
    requires Sized(n, view) && y in view && issuer < n
    requires OnlyJudged(WithWitness(view, y, issuer, weight), view')
    ensures OnlyApproved(view, view') && BitAdded(n, view, view', issuer, {y})
  {
    SetBitAddsWitness(view[y].weightSlice, issuer, n);
    assert WithWitness(view, y, issuer, weight).Keys == view.Keys;
    forall m | m in view
      ensures |view'[m].weightSlice| == SliceLength(n)
      ensures Bits(n, view', m) == Bits(n, view, m) + if m == y then {issuer} else {}
    {
      assert view'[m].weightSlice == WithWitness(view, y, issuer, weight)[m].weightSlice;
    }
  }

  lemma NotVisited(n: nat, view: View, issuer: nat)
    requires Sized(n, view)
    ensures OnlyApproved(view, view) && BitAdded(n, view, view, issuer, {})
  {
  }

  lemma WitnessIsNoDate(
    c: Config, genesisTime: Time, db: Dag.Ledger, view: View, y: MessageID, issuer: nat, weight: nat,
    log: seq<MessageID>, clock: Clock)
    requires Dated(c, genesisTime, db, view, log, clock) && y in view && issuer / 8 < |view[y].weightSlice|
    ensures Dated(c, genesisTime, db, WithWitness(view, y, issuer, weight), log, clock)
  {
    assert WithWitness(view, y, issuer, weight).Keys == view.Keys;
    DatedKept(c, genesisTime, db, view, WithWitness(view, y, issuer, weight), log, clock);
  }

  lemma JudgedAfterwards(
    c: Config, db: Dag.Ledger, threshold: real, att: Time, att': Time, view: View, y: MessageID, issuer: nat,
    weight: nat, view': View, reached: bool, late: bool)
    requires y in view && issuer / 8 < |view[y].weightSlice| && OnlyJudged(WithWitness(view, y, issuer, weight), view')
    requires WellJudged(c, db, threshold, att, att', WithWitness(view, y, issuer, weight), view')
    requires OneJudged(WithWitness(view, y, issuer, weight), view', y, reached, late)
    ensures WellJudged(c, db, threshold, att, att', view, view') && OneJudged(view, view', y, reached, late)
    ensures y in view' && view'[y].weight == view[y].weight + weight
  {
    assert WithWitness(view, y, issuer, weight).Keys == view.Keys;
  }

  lemma Orphaned(
    c: Config, w: Weights, threshold: real, db: Dag.Ledger, view: View, y: MessageID, log: seq<MessageID>, att: Time)
    requires JudgedBut(w, c.nodesCount, threshold, view, y) && Announced(view, log)
    requires y in view && !view[y].confirmed && !view[y].orphaned && view[y].weight as real >= threshold
    requires y in db && db[y].issuanceTime + c.minCommittableAge * c.slowdownFactor < att
    ensures var view' := view[y := view[y].(orphaned := true)];
      && InOrder(w, c.nodesCount, threshold, view') && Announced(view', log) && OnlyJudged(view, view')
      && WellJudged(c, db, threshold, att, att, view, view') && OneJudged(view, view', y, true, true)
  {
  }

  lemma Confirmed(
    c: Config, w: Weights, threshold: real, db: Dag.Ledger, view: View, view': View, y: MessageID,
    log: seq<MessageID>, att: Time, att': Time)
    requires JudgedBut(w, c.nodesCount, threshold, view, y) && Announced(view, log)
    requires y in view && !view[y].confirmed && !view[y].orphaned && view[y].weight as real >= threshold
    requires y in db && db[y].issuanceTime + c.minCommittableAge * c.slowdownFactor >= att
    requires Buffers.OnlyReadied(view[y := view[y].(confirmed := true)], view')
    ensures InOrder(w, c.nodesCount, threshold, view') && Announced(view', log + [y]) && OnlyJudged(view, view')
    ensures WellJudged(c, db, threshold, att, att', view, view') && OneJudged(view, view', y, true, false)
    ensures view'[y].weight == view[y].weight
  {
  }

  lemma NobodyJudged(view: View, y: MessageID, late: bool)
    requires y in view
    ensures OneJudged(view, view, y, false, late)
  {
  }

  lemma NothingToJudge(w: Weights, n: nat, threshold: real, view: View, y: MessageID, late: bool)
    requires JudgedBut(w, n, threshold, view, y) && y in view
    requires view[y].weight as real >= threshold ==> view[y].confirmed || view[y].orphaned
    ensures InOrder(w, n, threshold, view) && OnlyJudged(view, view)
    ensures OneJudged(view, view, y, view[y].weight as real >= threshold, late)
  {
  }
}
