/** Makes messages solid as soon as their parents are, and requests what is missing (multiverse/solidifer.go). */
module Solidifier {
  import opened Messages
  import opened Pipeline
  import ApprovalManager
  import Booker
  import Buffers
  import Dag
  import IccaScheduler
  import Opinions
  import Requester
  import RoundRobin
  import Storage

  type View = Buffers.View

  /** What was announced: messages that became solid, messages that were confirmed, and colours. */
  datatype History = History(solid: seq<MessageID>, confirmed: seq<MessageID>, notices: seq<Opinions.Notice>)

  class Solidifier {
    const storage: Storage.Storage
    const requester: Requester.Requester
    const opinions: Opinions.OpinionManager
    const scheduler: IccaScheduler.ICCAScheduler
    const booker: Booker.Booker
    const approvalManager: ApprovalManager.ApprovalManager
    ghost var solidLog: seq<MessageID> // the messages that were announced to be solid

    ghost predicate Linked()
      reads storage
    {
      && booker.storage == storage && booker.opinions == opinions && booker.scheduler == scheduler
      && approvalManager.storage == storage && approvalManager.scheduler == scheduler
      && this !in storage.footprint && requester !in storage.footprint
      && booker !in storage.footprint && approvalManager !in storage.footprint
      && opinions !in storage.footprint && scheduler !in storage.footprint && storage !in storage.footprint
    }

    ghost function Solids(): set<MessageID>
      reads storage`view
    {
      SolidIDs(storage.view)
    }

    ghost function Events(): History
      reads this, approvalManager, opinions
    {
      History(solidLog, approvalManager.confirmedLog, opinions.notices)
    }

    /** All parts are in order, and the solid messages were announced. */
    ghost predicate Parts()
      reads this, storage, storage.footprint, opinions, scheduler, booker, approvalManager
    {
      && Linked() && booker.Valid() && approvalManager.Valid()
      && Solidity(storage.messageDB, storage.view, solidLog)
    }

    /** Every solid message was booked and approved. */
    ghost predicate Valid()
      reads this, storage, storage.footprint, opinions, scheduler, booker, approvalManager
    {
      Parts() && booker.booked == Solids() == approvalManager.approved && booker.bookedLog == solidLog
    }

    constructor (
      requester: Requester.Requester, booker: Booker.Booker, approvalManager: ApprovalManager.ApprovalManager)
      requires booker.Valid() && booker.booked == {} && booker.bookedLog == [] && booker.storage.messageDB == map[]
      requires approvalManager.Valid() && approvalManager.approved == {}
      requires approvalManager.storage == booker.storage && approvalManager.scheduler == booker.scheduler
      requires requester !in booker.storage.footprint && approvalManager !in booker.storage.footprint
      ensures Valid() && solidLog == [] && this.requester == requester && this.booker == booker
      ensures this.approvalManager == approvalManager && storage == booker.storage
      ensures opinions == booker.opinions && scheduler == booker.scheduler
    {
      this.requester, this.booker, this.approvalManager := requester, booker, approvalManager;
      hide IccaScheduler.ICCAScheduler.Placed, IccaScheduler.ICCAScheduler.History, Opinions.OpinionManager.Valid,
        Opinions.OpinionManager.Settled, Approvals, Dated;
      storage, opinions, scheduler := booker.storage, booker.opinions, booker.scheduler;
      solidLog := [];
    }

    /** Whether all parents are solid; parents that are not stored are requested. */
    method ParentsSolid(parents: set<MessageID>) returns (parentsSolid: bool)
      requires storage.Valid() && requester !in storage.footprint
      modifies requester
      ensures parentsSolid <==> forall p :: p in parents && p != GENESIS ==> p in Solids()
      ensures requester.queuedElements == old(requester.queuedElements) + Unstored(storage.messageDB, parents)
      ensures old(requester.AllSent()) ==> requester.AllSent()
    {
      hide Storage.Storage.Valid, SolidIDs, Unstored;
      ghost var solids := Solids();
      parentsSolid := true;
      NothingUnstored(storage.messageDB, parents);
      var todo := parents;
      while todo != {}
        invariant todo <= parents
        invariant parentsSolid <==> forall p :: p in parents - todo && p != GENESIS ==> p in solids
        invariant requester.queuedElements
           == old(requester.queuedElements) + Unstored(storage.messageDB, parents - todo)
        invariant old(requester.AllSent()) ==> requester.AllSent()
      {
        Inhabited(todo);
        var parent :| parent in todo;
        ghost var done, queued := parents - todo, requester.queuedElements;
        todo := todo - {parent};
        assert parents - todo == done + {parent};
        SolidIsStored(parent);
        OneMoreUnstored(storage.messageDB, done, parent);
        if parent != GENESIS {
          if parent !in storage.messageDB {
            requester.StartRequest(parent);
            parentsSolid := false;
          } else if !storage.MetadataOf(parent).solid {
            parentsSolid := false;
          }
        }
      }
      assert parents - {} == parents;
    }

    lemma SolidIsStored(p: MessageID)
      requires storage.Valid()
      ensures p in Solids() <==> p in storage.messageDB && p in storage.view && storage.view[p].solid
      ensures p in storage.messageDB ==> p in storage.view
    {
    }

    /** Both kinds of parents are checked, so everything that is missing is requested. */
    method MessageSolid(id: MessageID) returns (isSolid: bool)
      requires storage.Valid() && requester !in storage.footprint && id in storage.messageDB
      modifies requester
      ensures isSolid <==> Dag.ParentsIn(storage.messageDB, id, Solids())
      ensures requester.queuedElements
           == old(requester.queuedElements) + Unstored(storage.messageDB, storage.messageDB[id].Parents())
      ensures old(requester.AllSent()) ==> requester.AllSent()
    {
      hide Storage.Storage.Valid, SolidIDs;
      var strong := ParentsSolid(storage.messageDB[id].strongParents);
      var weak := ParentsSolid(storage.messageDB[id].weakParents);
      isSolid := strong && weak;
    }

    /** Sets the flag; no other part depends on it. */
    method SetSolid(id: MessageID) returns (modified: bool)
      requires Parts() && id in storage.messageDB && Dag.ParentsIn(storage.messageDB, id, Solids())
      modifies this, storage`view, storage.footprint
      ensures Parts() && modified == (id !in old(Solids())) && Solids() == old(Solids()) + {id}
      ensures solidLog == if modified then old(solidLog) + [id] else old(solidLog)
      ensures Continues(old(Events()), Events())
    {
      hide Bookings, Approvals, Dated, Solidity, Dag.ParentsIn, SolidIDs, IccaScheduler.ICCAScheduler.Valid,
        Opinions.OpinionManager.Valid, Opinions.OpinionManager.Settled;
      ghost var db, view := storage.messageDB, storage.view;
      RecordsOfStored(db, view, solidLog);
      modified := SetFlag(id);
      MoreSolid(db, view, storage.view, solidLog, id);
      SolidityIsSeparate(db, approvalManager.weights, approvalManager.config.nodesCount, approvalManager.Threshold(),
                         view, storage.view, id, booker.booked, booker.invalid, scheduler.enqueued,
                         opinions.peerOpinions, approvalManager.approved, approvalManager.confirmedLog);
      SolidIsNoDate(approvalManager.config, storage.genesisTime, db, view, id, approvalManager.confirmedLog,
                    Clock(storage.acceptedSlotDB, storage.ATT));
      if modified {
        solidLog := solidLog + [id];
      }
    }

    method SetFlag(id: MessageID) returns (modified: bool)
      requires Linked() && booker.Linked() && scheduler.Valid({})
      requires id in storage.messageDB && Dag.ParentsIn(storage.messageDB, id, Solids())
      modifies storage`view, storage.footprint
      ensures scheduler.Valid({}) && modified == !old(storage.view)[id].solid
      ensures storage.view == old(storage.view)[id := old(storage.view)[id].(solid := true)]
    {
      label before:
      hide Dag.ParentsIn, Buffers.Sorted, RoundRobin.Valid, Storage.Storage.Valid, Buffers.TotalLength,
        Dag.WellFormed, Buffers.SolidHasParents;
      modified := storage.SetSolid(id);
      Buffers.SolidWithParents(storage.messageDB, old(storage.view), storage.view, id);
      scheduler.StorageChanged@before({});
    }

    /** Announces a message that just became solid; booking and approval come in any order. */
    method Announce(id: MessageID)
      requires Parts() && id in storage.messageDB && id in Solids() && id !in booker.booked
      requires booker.booked == approvalManager.approved && Solids() == booker.booked + {id}
      requires solidLog == booker.bookedLog + [id]
      modifies opinions, booker, approvalManager
      modifies scheduler`nonReadyMap, scheduler`issuerQueues, scheduler`readyLen, scheduler`enqueued, scheduler`popped,
        scheduler`scheduledLog, scheduler`confirmedThen
      modifies storage`view, storage.footprint, storage`acceptedSlotDB, storage`ATT
      ensures Valid() && Solids() == old(Solids())
      ensures Continues(old(Events()), Events())
      ensures Buffers.Flows(scheduler.config.maxBuffer, old(scheduler.Flow()), scheduler.Flow())
    {
      hide Solidity, Dag.ParentsIn, SolidIDs, Booker.Booker.Valid, ApprovalManager.ApprovalManager.Valid,
        Buffers.Flows, IccaScheduler.ICCAScheduler.Left;
      ParentsWereSolid(storage.messageDB, storage.view, solidLog, booker.booked, id);
      ghost var flow;
      if * {
        BookSolid(id);
        flow := scheduler.Flow();
        ApproveSolid(id);
      } else {
        ApproveSolid(id);
        flow := scheduler.Flow();
        BookSolid(id);
      }
      Buffers.FlowsOn(scheduler.config.maxBuffer, old(scheduler.Flow()), flow, scheduler.Flow());
    }

    method BookSolid(id: MessageID)
      requires Parts() && id in storage.messageDB && id in Solids() && id !in booker.booked
      requires Dag.ParentsIn(storage.messageDB, id, booker.booked)
      modifies opinions, booker, storage`view, storage.footprint
      modifies scheduler`nonReadyMap, scheduler`issuerQueues, scheduler`readyLen, scheduler`enqueued, scheduler`popped,
        scheduler`scheduledLog, scheduler`confirmedThen
      ensures Parts() && Solids() == old(Solids()) && booker.booked == old(booker.booked) + {id}
      ensures booker.bookedLog == old(booker.bookedLog) + [id]
      ensures old(opinions.notices) <= opinions.notices
      ensures Buffers.Flows(scheduler.config.maxBuffer, old(scheduler.Flow()), scheduler.Flow())
    {
      hide Bookings, Approvals, Dated, Solidity, Dag.ParentsIn, SolidIDs, IccaScheduler.ICCAScheduler.Valid,
        Opinions.OpinionManager.Valid, Opinions.OpinionManager.Settled, OnlyBooked;
      ghost var db, view := storage.messageDB, storage.view;
      RecordsOfStored(db, view, solidLog);
      InSolids(view, id);
      booker.Book(id);
      BookingKeeps(db, approvalManager.weights, approvalManager.config.nodesCount, approvalManager.Threshold(),
                   view, storage.view, solidLog, approvalManager.approved, approvalManager.confirmedLog);
      BookedIsNoDate(approvalManager.config, storage.genesisTime, db, view, storage.view, approvalManager.confirmedLog,
                     Clock(storage.acceptedSlotDB, storage.ATT));
    }

    method ApproveSolid(id: MessageID)
      requires Parts() && id in storage.messageDB && id in Solids() && id !in approvalManager.approved
      requires Dag.ParentsIn(storage.messageDB, id, approvalManager.approved)
      modifies approvalManager, storage`view, storage.footprint, storage`acceptedSlotDB, storage`ATT
      modifies scheduler`nonReadyMap, scheduler`issuerQueues, scheduler`readyLen
      ensures Parts() && Solids() == old(Solids()) && approvalManager.approved == old(approvalManager.approved) + {id}
      ensures old(approvalManager.confirmedLog) <= approvalManager.confirmedLog
      ensures Buffers.Flows(scheduler.config.maxBuffer, old(scheduler.Flow()), scheduler.Flow())
    {
      hide Bookings, Approvals, Dated, Solidity, Dag.ParentsIn, SolidIDs, IccaScheduler.ICCAScheduler.Valid,
        Opinions.OpinionManager.Valid, Opinions.OpinionManager.Settled, OnlyApproved;
      ghost var db, view := storage.messageDB, storage.view;
      RecordsOfStored(db, view, solidLog);
      approvalManager.ApproveMessages(id);
      ApprovalKeeps(db, view, storage.view, solidLog, booker.booked, booker.invalid, scheduler.enqueued,
                    opinions.peerOpinions);
    }

    /** Makes a message solid if its parents are, and then its future cone as far as that goes. */
    method Solidify(id: MessageID)
      requires Valid() && id in storage.messageDB
      modifies this, requester, opinions, booker, approvalManager
      modifies scheduler`nonReadyMap, scheduler`issuerQueues, scheduler`readyLen, scheduler`enqueued, scheduler`popped,
        scheduler`scheduledLog, scheduler`confirmedThen
      modifies storage`view, storage.footprint, storage`acceptedSlotDB, storage`ATT
      ensures Valid() && old(Solids()) <= Solids()
      ensures Overlooked(storage.messageDB, Solids()) <= Overlooked(storage.messageDB, old(Solids())) - {id}
      ensures Requested(storage.messageDB, {id}, old(requester.queuedElements), requester.queuedElements)
      ensures Continues(old(Events()), Events())
      ensures Buffers.Flows(scheduler.config.maxBuffer, old(scheduler.Flow()), scheduler.Flow())
      ensures old(requester.AllSent()) ==> requester.AllSent()
      decreases storage.messageDB.Keys - Solids(), 0
    {
      hide Solidity, Booker.Booker.Valid, ApprovalManager.ApprovalManager.Valid, Storage.Storage.Valid, Dag.ParentsIn,
        SolidIDs, Overlooked, Requested, Continues, Unstored, MissingSet, Buffers.Flows,
        IccaScheduler.ICCAScheduler.Left, Solidifier.Events;
      ghost var db, queued, solids, flow := storage.messageDB, requester.queuedElements, Solids(), scheduler.Flow();
      NothingHappened(Events());
      Buffers.FlowsWithin(scheduler.config.maxBuffer, flow, flow);
      StorageInOrder();
      var isSolid := MessageSolid(id);
      ParentsRequested(db, id, queued, requester.queuedElements);
      if !isSolid {
        NotOverlooked(db, solids, id);
        return;
      }
      var modified := SetSolid(id);
      if !modified {
        NotOverlooked(db, solids, id);
        assert solids + {id} == solids;
        return;
      }
      ghost var events0 := Events();
      Announce(id);
      HistoryGoesOn(old(Events()), events0, Events());
      ghost var events1, queued1, flow1 := Events(), requester.queuedElements, scheduler.Flow();
      SolidifyChildren(id, solids);
      HistoryGoesOn(old(Events()), events1, Events());
      Buffers.FlowsOn(scheduler.config.maxBuffer, flow, flow1, scheduler.Flow());
      MoreRequested(db, {id}, {}, queued, queued1, requester.queuedElements);
    }

    /** The children of a message that just became solid are all that can be overlooked. */
    method SolidifyChildren(id: MessageID, ghost before: set<MessageID>)
      requires Valid() && Solids() == before + {id}
      modifies this, requester, opinions, booker, approvalManager
      modifies scheduler`nonReadyMap, scheduler`issuerQueues, scheduler`readyLen, scheduler`enqueued, scheduler`popped,
        scheduler`scheduledLog, scheduler`confirmedThen
      modifies storage`view, storage.footprint, storage`acceptedSlotDB, storage`ATT
      ensures Valid() && old(Solids()) <= Solids()
      ensures Overlooked(storage.messageDB, Solids()) <= Overlooked(storage.messageDB, before) - {id}
      ensures Requested(storage.messageDB, {}, old(requester.queuedElements), requester.queuedElements)
      ensures Continues(old(Events()), Events())
      ensures Buffers.Flows(scheduler.config.maxBuffer, old(scheduler.Flow()), scheduler.Flow())
      ensures old(requester.AllSent()) ==> requester.AllSent()
      decreases storage.messageDB.Keys - Solids(), 2
    {
      hide Solidity, Booker.Booker.Valid, ApprovalManager.ApprovalManager.Valid, Storage.Storage.Valid, Dag.ParentsIn,
        SolidIDs, Overlooked, Requested, Continues, Unstored, MissingSet, Buffers.Flows,
        IccaScheduler.ICCAScheduler.Left, Solidifier.Events;
      ghost var db, queued, flow := storage.messageDB, requester.queuedElements, scheduler.Flow();
      ghost var strong := Storage.ChildrenOf(storage.strongChildrenDB, id);
      ghost var weak := Storage.ChildrenOf(storage.weakChildrenDB, id);
      StorageInOrder();
      Storage.ChildrenAreStored(db, storage.strongChildrenDB, storage.weakChildrenDB, id);
      OnlyChildrenOverlooked(db, before, id, strong + weak);
      NothingRequested(db, queued);
      SolidifyAll(Storage.ChildrenOf(storage.strongChildrenDB, id));
      ghost var events1, queued1, flow1 := Events(), requester.queuedElements, scheduler.Flow();
      MoreRequested(db, {}, strong, queued, queued, queued1);
      SolidifyAll(Storage.ChildrenOf(storage.weakChildrenDB, id));
      HistoryGoesOn(old(Events()), events1, Events());
      Buffers.FlowsOn(scheduler.config.maxBuffer, flow, flow1, scheduler.Flow());
      MoreRequested(db, {}, weak, queued, queued1, requester.queuedElements);
    }

    /** What the parts know about the storage. */
    lemma StorageInOrder()
      requires Parts()
      ensures storage.Valid() && requester !in storage.footprint && storage.view.Keys == storage.messageDB.Keys
      ensures Storage.ChildrenIndexed(storage.messageDB, storage.strongChildrenDB, storage.weakChildrenDB)
    {
    }

    method SolidifyAll(ids: set<MessageID>)
      requires Valid() && ids <= storage.messageDB.Keys
      modifies this, requester, opinions, booker, approvalManager
      modifies scheduler`nonReadyMap, scheduler`issuerQueues, scheduler`readyLen, scheduler`enqueued, scheduler`popped,
        scheduler`scheduledLog, scheduler`confirmedThen
      modifies storage`view, storage.footprint, storage`acceptedSlotDB, storage`ATT
      ensures Valid() && old(Solids()) <= Solids()
      ensures Overlooked(storage.messageDB, Solids()) <= Overlooked(storage.messageDB, old(Solids())) - ids
      ensures Requested(storage.messageDB, ids, old(requester.queuedElements), requester.queuedElements)
      ensures Continues(old(Events()), Events())
      ensures Buffers.Flows(scheduler.config.maxBuffer, old(scheduler.Flow()), scheduler.Flow())
      ensures old(requester.AllSent()) ==> requester.AllSent()
      decreases storage.messageDB.Keys - Solids(), 1
    {
      hide Solidity, Booker.Booker.Valid, ApprovalManager.ApprovalManager.Valid, Dag.ParentsIn, SolidIDs, Overlooked,
        Requested, Continues, MissingSet, Buffers.Flows, IccaScheduler.ICCAScheduler.Left, Solidifier.Events;
      ghost var db, max := storage.messageDB, scheduler.config.maxBuffer;
      NothingHappened(Events());
      Buffers.FlowsWithin(max, scheduler.Flow(), scheduler.Flow());
      NothingRequested(db, requester.queuedElements);
      var todo := ids;
      assert ids - todo == {};
      while todo != {}
        invariant Valid() && old(Solids()) <= Solids() && todo <= ids
        invariant Overlooked(db, Solids()) <= Overlooked(db, old(Solids())) - (ids - todo)
        invariant Requested(db, ids - todo, old(requester.queuedElements), requester.queuedElements)
        invariant Continues(old(Events()), Events())
        invariant Buffers.Flows(max, old(scheduler.Flow()), scheduler.Flow())
        invariant old(requester.AllSent()) ==> requester.AllSent()
      {
        Inhabited(todo);
        var id :| id in todo;
        ghost var events, queued, flow := Events(), requester.queuedElements, scheduler.Flow();
        Solidify(id);
        HistoryGoesOn(old(Events()), events, Events());
        Buffers.FlowsOn(max, old(scheduler.Flow()), flow, scheduler.Flow());
        MoreRequested(db, ids - todo, {id}, old(requester.queuedElements), queued, requester.queuedElements);
        assert ids - (todo - {id}) == ids - todo + {id};
        todo := todo - {id};
      }
      assert ids - todo == ids;
    }
  }

  /** The stored messages that should be solid but are not. */
  ghost function Overlooked(db: Dag.Ledger, solids: set<MessageID>): set<MessageID> {
    set x | x in db && x !in solids && Dag.ParentsIn(db, x, solids)
  }

  /** The parents of stored messages that are not stored. */
  ghost function MissingSet(db: Dag.Ledger): set<MessageID> {
    set id, p | id in db && p in Unstored(db, db[id].Parents()) :: p
  }

  ghost predicate IsParent(db: Dag.Ledger, p: MessageID) {
    exists x :: x in db && p in db[x].strongParents + db[x].weakParents
  }

  lemma MissingIff(db: Dag.Ledger, p: MessageID)
    ensures p in MissingSet(db) <==> p != GENESIS && p !in db && IsParent(db, p)
  {
    if p != GENESIS && p !in db && IsParent(db, p) {
      var x :| x in db && p in db[x].strongParents + db[x].weakParents;
      assert p in Unstored(db, db[x].Parents());
    }
  }

  /** The missing parents of some messages were requested, and nothing that is not missing. */
  ghost predicate Requested(db: Dag.Ledger, ids: set<MessageID>, before: set<MessageID>, after: set<MessageID>) {
    && before <= after <= before + MissingSet(db)
    && forall id :: id in ids && id in db ==> Unstored(db, db[id].Parents()) <= after
  }

  lemma NothingHappened(events: History)
    ensures Continues(events, events)
  {
  }

  lemma HistoryGoesOn(a: History, b: History, c: History)
    requires Continues(a, b) && Continues(b, c)
    ensures Continues(a, c)
  {
  }

  lemma NothingRequested(db: Dag.Ledger, queued: set<MessageID>)
    ensures Requested(db, {}, queued, queued)
  {
  }

  lemma MoreRequested(
    db: Dag.Ledger, ids: set<MessageID>, more: set<MessageID>,
    a: set<MessageID>, b: set<MessageID>, c: set<MessageID>)
    requires Requested(db, ids, a, b) && Requested(db, more, b, c)
    ensures Requested(db, ids, a, c) && Requested(db, ids + more, a, c)
  {
    hide MissingSet;
  }

  lemma ParentsRequested(db: Dag.Ledger, id: MessageID, before: set<MessageID>, after: set<MessageID>)
    requires id in db && after == before + Unstored(db, db[id].Parents())
    ensures Requested(db, {id}, before, after)
  {
    assert forall p :: p in Unstored(db, db[id].Parents()) ==> p in MissingSet(db);
  }

  lemma NotOverlooked(db: Dag.Ledger, solids: set<MessageID>, id: MessageID)
    requires id in db && (id in solids || !Dag.ParentsIn(db, id, solids))
    ensures Overlooked(db, solids) - {id} == Overlooked(db, solids)
  {
  }

  /** Only children of the new solid message can be overlooked by it. */
  lemma OnlyChildrenOverlooked(db: Dag.Ledger, solids: set<MessageID>, id: MessageID, children: set<MessageID>)
    requires forall c :: c in db && id in db[c].Parents() ==> c in children
    ensures Overlooked(db, solids + {id}) <= Overlooked(db, solids) - {id} + children
  {
    forall x | x in Overlooked(db, solids + {id}) && x !in children
      ensures x in Overlooked(db, solids)
    {
    }
  }

  lemma NothingToDo()
    ensures MissingSet(map[]) == {} && forall solids :: Overlooked(map[], solids) == {}
  {
  }

  lemma NoneOverlooked(db: Dag.Ledger, solids: set<MessageID>)
    requires Dag.WellFormed(db) && Dag.Closed(db, solids) && Overlooked(db, solids) == {}
    ensures solids == Dag.SolidSet(db)
  {
    forall x | x in db && Dag.ParentsIn(db, x, solids)
      ensures x in solids
    {
      assert x in Overlooked(db, solids) || x in solids;
    }
    Dag.ClosedAndCompleteIsSolidSet(db, solids);
  }

  /** Storing a message can make nothing overlooked but the message itself. */
  lemma OnlyNewOverlooked(db: Dag.Ledger, m: Message, solids: set<MessageID>)
    requires m.id !in db && Overlooked(db, solids) == {}
    ensures Overlooked(db[m.id := m], solids) - {m.id} == {}
  {
    forall x | x in Overlooked(db[m.id := m], solids) - {m.id}
      ensures x in Overlooked(db, solids)
    {
    }
  }

  /** After a message was stored and its request stopped, exactly what is missing is requested. */
  lemma NothingStillMissing(
    db: Dag.Ledger, m: Message, queued: set<MessageID>, before: set<MessageID>, after: set<MessageID>)
    requires m.id !in db && queued == MissingSet(db) && queued - {m.id} <= before <= queued
    requires Requested(db[m.id := m], {m.id}, before, after)
    ensures after - {m.id} == MissingSet(db[m.id := m])
    ensures m.id !in before ==> after == MissingSet(db[m.id := m])
  {
    var db' := db[m.id := m];
    forall p
      ensures p in MissingSet(db') <==> p != m.id && (p in MissingSet(db) || p in Unstored(db', m.Parents()))
    {
      if p in MissingSet(db') {
        var id :| id in db' && p in Unstored(db', db'[id].Parents());
        assert id != m.id ==> p in Unstored(db, db[id].Parents());
      }
      if p in MissingSet(db) && p != m.id {
        var id :| id in db && p in Unstored(db, db[id].Parents());
        assert id in db' && p in Unstored(db', db'[id].Parents());
      }
      if p in Unstored(db', m.Parents()) {
        assert m.id in db' && p in Unstored(db', db'[m.id].Parents());
      }
    }
  }

  /** The messages among some parents that are not stored. */
  ghost function Unstored(db: Dag.Ledger, parents: set<MessageID>): set<MessageID> {
    set p | p in parents && p != GENESIS && p !in db
  }

  lemma NothingUnstored(db: Dag.Ledger, parents: set<MessageID>)
    ensures Unstored(db, parents - parents) == {}
  {
  }

  lemma OneMoreUnstored(db: Dag.Ledger, parents: set<MessageID>, p: MessageID)
    ensures Unstored(db, parents + {p}) == Unstored(db, parents) + if p != GENESIS && p !in db then {p} else {}
  {
  }

  /** What was announced is never taken back. */
  ghost predicate Continues(before: History, after: History) {
    before.solid <= after.solid && before.confirmed <= after.confirmed && before.notices <= after.notices
  }

  lemma RecordsOfStored(db: Dag.Ledger, view: View, log: seq<MessageID>)
    requires Solidity(db, view, log)
    ensures db.Keys == view.Keys
  {
  }

  lemma InSolids(view: View, id: MessageID)
    ensures id in SolidIDs(view) <==> id in view && view[id].solid
  {
  }

  /** No message is its own parent. */
  lemma ParentsWereSolid(db: Dag.Ledger, view: View, log: seq<MessageID>, s: set<MessageID>, id: MessageID)
    requires Solidity(db, view, log) && SolidIDs(view) == s + {id} && id in db
    ensures Dag.ParentsIn(db, id, s)
  {
    assert Dag.ParentsIn(db, id, SolidIDs(view));
  }

  lemma MoreSolid(db: Dag.Ledger, view: View, view': View, log: seq<MessageID>, id: MessageID)
    requires Solidity(db, view, log) && id in view && view' == view[id := view[id].(solid := true)]
    requires Dag.ParentsIn(db, id, SolidIDs(view))
    ensures SolidIDs(view') == SolidIDs(view) + {id} && (id in SolidIDs(view) <==> view[id].solid)
    ensures Solidity(db, view', if view[id].solid then log else log + [id])
  {
    if view[id].solid {
      assert view' == view;
    } else {
      BecomingSolid(db, view, view', log, id);
    }
  }
}
