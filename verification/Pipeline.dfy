/**
 What a node records on the way of a message through solidification, booking and approval
 (multiverse/tangle.go), as facts about the stored messages and their records.
 */
module Pipeline {
  import opened Messages
  import opened Parameters
  import opened Metadata
  import opened PeerWeights
  import opened Voting
  import opened Witnessing
  import Buffers
  import Dag
  import Opinions
  import Storage

  ghost function SolidIDs(view: View): set<MessageID> {
    set id | id in view && view[id].solid
  }

  // ----- histories of events -----

  /** Every event happened once. */
  ghost predicate Once(log: seq<MessageID>) {
    forall i, j :: 0 <= i < j < |log| ==> log[i] != log[j]
  }

  ghost predicate After(db: Dag.Ledger, log: seq<MessageID>, i: nat)
    requires i < |log|
  {
    log[i] in db && forall p :: p in db[log[i]].Parents() && p != GENESIS ==> p in log[..i]
  }

  /** Every event came after the events of the parents. */
  ghost predicate ParentsFirst(db: Dag.Ledger, log: seq<MessageID>) {
    forall i :: 0 <= i < |log| ==> After(db, log, i)
  }

  lemma OneMoreEvent(log: seq<MessageID>, id: MessageID)
    requires Once(log) && id !in log
    ensures Once(log + [id])
  {
  }

  lemma OneMoreAfterParents(db: Dag.Ledger, log: seq<MessageID>, id: MessageID)
    requires ParentsFirst(db, log) && id in db && forall p :: p in db[id].Parents() && p != GENESIS ==> p in log
    ensures ParentsFirst(db, log + [id])
  {
    var log' := log + [id];
    forall i | 0 <= i < |log'|
      ensures After(db, log', i)
    {
      if i < |log| {
        assert After(db, log, i);
        assert log'[..i] == log[..i];
      } else {
        assert log'[..i] == log;
      }
    }
  }

  // ----- the three stages -----

  /** The solid messages hold their parents, and each was announced once, after its parents. */
  ghost predicate Solidity(db: Dag.Ledger, view: View, log: seq<MessageID>) {
    && Dag.WellFormed(db) && db.Keys == view.Keys && Dag.Closed(db, SolidIDs(view))
    && Once(log) && ParentsFirst(db, log) && forall id :: id in log <==> id in SolidIDs(view)
  }

  /** Of the booked messages the valid ones were coloured, voted and enqueued, the others reported invalid. */
  ghost predicate Bookings(
    db: Dag.Ledger, view: View, booked: set<MessageID>, invalid: set<MessageID>, enqueued: set<MessageID>,
    votes: Opinions.Votes)
  {
    && Dag.Closed(db, booked) && Colored(db, view, booked) && LatestVotes(db, booked, votes)
    && (forall id :: id in enqueued <==> id in booked && Dag.Bookable(db, id))
    && (forall id :: id in invalid <==> id in booked && !Dag.Bookable(db, id))
  }

  /** Each confirmed message was announced once. */
  ghost predicate Announced(view: View, log: seq<MessageID>) {
    Once(log) && forall id :: id in log <==> id in view && view[id].confirmed
  }

  /** The approved messages are the ones that witness: bitmaps, weights and confirmations follow from them. */
  ghost predicate Approvals(
    db: Dag.Ledger, w: Weights, n: nat, threshold: real, view: View, approved: set<MessageID>, log: seq<MessageID>)
  {
    && Dag.Closed(db, approved) && WitnessesExact(db, n, view, approved)
    && InOrder(w, n, threshold, view) && Announced(view, log)
  }

  // ----- times -----

  /** The accepted tangle time and the slots of accepted messages. */
  datatype Clock = Clock(accepted: Storage.Slots, att: Time)

  ghost predicate InAcceptedSlot(
    c: Config, genesisTime: Time, db: Dag.Ledger, log: seq<MessageID>, slot: int, id: MessageID)
  {
    c.Sensible() && id in log && id in db && Storage.SlotIndex(c, genesisTime, db[id].issuanceTime) == slot
  }

  /** Accepted are the confirmed messages, the tangle time is the latest of theirs, and orphans are too old by it. */
  ghost predicate Dated(
    c: Config, genesisTime: Time, db: Dag.Ledger, view: View, log: seq<MessageID>, clock: Clock)
  {
    && (forall s, id :: id in Storage.InSlot(clock.accepted, s) <==> InAcceptedSlot(c, genesisTime, db, log, s, id))
    && (forall id :: id in log ==> id in db && db[id].issuanceTime <= clock.att)
    && (clock.att == genesisTime || exists id :: id in log && id in db && db[id].issuanceTime == clock.att)
    && forall id :: id in view && id in db && view[id].orphaned ==>
         db[id].issuanceTime + c.minCommittableAge * c.slowdownFactor < clock.att
  }

  /**
   Only messages that reached the threshold are judged, while the tangle time goes on from `att` to `att'`: none that
   was too old before is confirmed, and none that is not too old afterwards is orphaned.
   */
  ghost predicate WellJudged(
    c: Config, db: Dag.Ledger, threshold: real, att: Time, att': Time, view: View, view': View)
  {
    forall id :: id in view && id in view' && id in db ==>
      && (view'[id].confirmed && !view[id].confirmed ==>
           view'[id].weight as real >= threshold
           && db[id].issuanceTime + c.minCommittableAge * c.slowdownFactor >= att)
      && (view'[id].orphaned && !view[id].orphaned ==>
           view'[id].weight as real >= threshold
           && db[id].issuanceTime + c.minCommittableAge * c.slowdownFactor < att')
  }

  lemma DatedKept(
    c: Config, genesisTime: Time, db: Dag.Ledger, view: View, view': View, log: seq<MessageID>, clock: Clock)
    requires Dated(c, genesisTime, db, view, log, clock) && view.Keys == view'.Keys
    requires forall id :: id in view ==> view'[id].orphaned == view[id].orphaned
    ensures Dated(c, genesisTime, db, view', log, clock)
  {
  }

  lemma SolidIsNoDate(
    c: Config, genesisTime: Time, db: Dag.Ledger, view: View, id: MessageID, log: seq<MessageID>, clock: Clock)
    requires Dated(c, genesisTime, db, view, log, clock) && id in view
    ensures Dated(c, genesisTime, db, view[id := view[id].(solid := true)], log, clock)
  {
    DatedKept(c, genesisTime, db, view, view[id := view[id].(solid := true)], log, clock);
  }

  lemma BookedIsNoDate(
    c: Config, genesisTime: Time, db: Dag.Ledger, view: View, view': View, log: seq<MessageID>, clock: Clock)
    requires Dated(c, genesisTime, db, view, log, clock) && OnlyBooked(view, view')
    ensures Dated(c, genesisTime, db, view', log, clock)
  {
    DatedKept(c, genesisTime, db, view, view', log, clock);
  }

  lemma DatedStored(
    c: Config, genesisTime: Time, db: Dag.Ledger, db': Dag.Ledger, n: nat, view: View, view': View, m: Message,
    log: seq<MessageID>, clock: Clock)
    requires Dated(c, genesisTime, db, view, log, clock) && OneMoreStored(db, db', n, view, view', m)
    requires view'[m.id].orphaned ==> m.issuanceTime + c.minCommittableAge * c.slowdownFactor < clock.att
    ensures Dated(c, genesisTime, db', view', log, clock)
  {
    forall s, id
      ensures id in Storage.InSlot(clock.accepted, s) <==> InAcceptedSlot(c, genesisTime, db', log, s, id)
    {
      assert id in Storage.InSlot(clock.accepted, s) <==> InAcceptedSlot(c, genesisTime, db, log, s, id);
    }
  }

  lemma DatedOrphan(
    c: Config, genesisTime: Time, db: Dag.Ledger, view: View, log: seq<MessageID>, clock: Clock, y: MessageID)
    requires Dated(c, genesisTime, db, view, log, clock) && y in view && y in db
    requires db[y].issuanceTime + c.minCommittableAge * c.slowdownFactor < clock.att
    ensures Dated(c, genesisTime, db, view[y := view[y].(orphaned := true)], log, clock)
  {
  }

  lemma DatedConfirmed(
    c: Config, genesisTime: Time, db: Dag.Ledger, view: View, view': View, log: seq<MessageID>,
    clock: Clock, clock': Clock, y: MessageID)
    requires c.Sensible() && Dated(c, genesisTime, db, view, log, clock) && y in view && y in db && db[y].id == y
    requires Buffers.OnlyReadied(view[y := view[y].(confirmed := true)], view')
    requires clock'.att == if db[y].issuanceTime > clock.att then db[y].issuanceTime else clock.att
    requires var slot := Storage.SlotIndex(c, genesisTime, db[y].issuanceTime);
      clock'.accepted == clock.accepted[slot := Storage.InSlot(clock.accepted, slot) + {y}]
    ensures Dated(c, genesisTime, db, view', log + [y], clock')
  {
    var slot := Storage.SlotIndex(c, genesisTime, db[y].issuanceTime);
    forall s, id
      ensures id in Storage.InSlot(clock'.accepted, s) <==> InAcceptedSlot(c, genesisTime, db, log + [y], s, id)
    {
      assert id in Storage.InSlot(clock.accepted, s) <==> InAcceptedSlot(c, genesisTime, db, log, s, id);
      assert id in Storage.InSlot(clock'.accepted, s)
        <==> id in Storage.InSlot(clock.accepted, s) || (s == slot && id == y);
    }
    if clock'.att != clock.att {
      assert y in log + [y];
    } else if clock.att != genesisTime {
      var id :| id in log && id in db && db[id].issuanceTime == clock.att;
      assert id in log + [y];
    }
  }

  /** Of the witnessed messages, those that weigh enough are confirmed unless they were issued too early. */
  lemma {:induction false} HeavyAreConfirmed(
    c: Config, genesisTime: Time, db: Dag.Ledger, w: Weights, threshold: real, view: View, approved: set<MessageID>,
    log: seq<MessageID>, clock: Clock, id: MessageID)
    requires Approvals(db, w, c.nodesCount, threshold, view, approved, log) && id in db
    requires Dated(c, genesisTime, db, view, log, clock)
    ensures id in view && |view[id].weightSlice| == SliceLength(c.nodesCount)
    ensures var r, witnesses := view[id], Witnesses(view[id].weightSlice, c.nodesCount);
      && r.weight == Sum(w, witnesses, c.nodesCount)
      && (r.confirmed ==> r.weight as real >= threshold && witnesses != {})
      && (r.weight as real >= threshold && witnesses != {} ==>
           r.confirmed || db[id].issuanceTime + c.minCommittableAge * c.slowdownFactor < clock.att)
  {
    hide Sum, Witnesses, InAcceptedSlot;
    assert id in view;
    assert Weighed(w, c.nodesCount, view[id]) && Judged(threshold, c.nodesCount, view[id]);
  }

  lemma NothingJudgedYet(c: Config, db: Dag.Ledger, threshold: real, att: Time, view: View)
    ensures WellJudged(c, db, threshold, att, att, view, view)
  {
  }

  lemma MoreJudged(
    c: Config, db: Dag.Ledger, threshold: real, att: Time, att': Time, att'': Time, view: View, view': View,
    view'': View)
    requires att <= att' <= att'' && OnlyApproved(view, view') && OnlyApproved(view', view'')
    requires WellJudged(c, db, threshold, att, att', view, view')
    requires WellJudged(c, db, threshold, att', att'', view', view'')
    ensures WellJudged(c, db, threshold, att, att'', view, view'')
  {
  }

  // ----- what one stage leaves to the others -----

  /** Bookings touch marks and colours only. */
  ghost predicate OnlyBooked(view: View, view': View) {
    && view.Keys == view'.Keys
    && forall id :: id in view ==>
         view'[id] == view[id].(ready := view'[id].ready, scheduled := view'[id].scheduled,
                                inheritedColor := view'[id].inheritedColor)
  }

  /** Approvals touch witnesses and what follows from them, and the marks of being ready. */
  ghost predicate OnlyApproved(view: View, view': View) {
    && view.Keys == view'.Keys
    && forall id :: id in view ==>
         && view'[id].solid == view[id].solid && view'[id].inheritedColor == view[id].inheritedColor
         && view'[id].scheduled == view[id].scheduled && view[id].weight <= view'[id].weight
         && (view[id].confirmed ==> view'[id].confirmed) && (view[id].orphaned ==> view'[id].orphaned)
  }

  lemma BookingKeeps(
    db: Dag.Ledger, w: Weights, n: nat, threshold: real, view: View, view': View,
    solidLog: seq<MessageID>, approved: set<MessageID>, log: seq<MessageID>)
    requires OnlyBooked(view, view')
    ensures Solidity(db, view, solidLog) ==> Solidity(db, view', solidLog)
    ensures SolidIDs(view') == SolidIDs(view)
    ensures Approvals(db, w, n, threshold, view, approved, log) ==> Approvals(db, w, n, threshold, view', approved, log)
  {
    SameSolid(view, view');
    if Approvals(db, w, n, threshold, view, approved, log) {
      forall m | m in view
        ensures Bits(n, view', m) == Bits(n, view, m)
      {
      }
    }
  }

  lemma ApprovalKeeps(
    db: Dag.Ledger, view: View, view': View, solidLog: seq<MessageID>, booked: set<MessageID>,
    invalid: set<MessageID>, enqueued: set<MessageID>, votes: Opinions.Votes)
    requires OnlyApproved(view, view')
    ensures Solidity(db, view, solidLog) ==> Solidity(db, view', solidLog)
    ensures SolidIDs(view') == SolidIDs(view)
    ensures Bookings(db, view, booked, invalid, enqueued, votes)
       ==> Bookings(db, view', booked, invalid, enqueued, votes)
  {
    SameSolid(view, view');
  }

  lemma SameSolid(view: View, view': View)
    requires view.Keys == view'.Keys && forall id :: id in view ==> view'[id].solid == view[id].solid
    ensures SolidIDs(view') == SolidIDs(view)
  {
    assert forall id :: id in SolidIDs(view') <==> id in SolidIDs(view);
  }

  /** The scheduler touches marks only, which belong to no stage. */
  lemma MarkingKeeps(
    db: Dag.Ledger, view: View, view': View, booked: set<MessageID>, invalid: set<MessageID>,
    enqueued: set<MessageID>, votes: Opinions.Votes)
    requires Buffers.OnlyMarked(view, view')
    ensures OnlyBooked(view, view')
    ensures Bookings(db, view, booked, invalid, enqueued, votes)
       ==> Bookings(db, view', booked, invalid, enqueued, votes)
  {
  }

  // ----- storing -----

  /** One more message is stored, of which nothing is known yet. */
  ghost predicate OneMoreStored(db: Dag.Ledger, db': Dag.Ledger, n: nat, view: View, view': View, m: Message) {
    && m.id !in db && Dag.WellFormedMessage(m) && db' == db[m.id := m]
    && db.Keys == view.Keys && view'.Keys == view.Keys + {m.id}
    && (forall id :: id in view ==> view'[id] == view[id])
    && var r := view'[m.id];
       && r == Record(false, false, UNDEFINED, r.weightSlice, 0, false, r.orphaned, false)
       && |r.weightSlice| == SliceLength(n) && Witnesses(r.weightSlice, n) == {}
  }

  lemma StoringKeepsSolidity(
    db: Dag.Ledger, db': Dag.Ledger, n: nat, view: View, view': View, m: Message, log: seq<MessageID>)
    requires OneMoreStored(db, db', n, view, view', m) && Solidity(db, view, log)
    ensures Solidity(db', view', log) && SolidIDs(view') == SolidIDs(view)
  {
    assert forall id :: id in SolidIDs(view') <==> id in SolidIDs(view);
    forall i | 0 <= i < |log|
      ensures After(db', log, i)
    {
      assert After(db, log, i);
    }
  }

  lemma StoringKeepsBookings(
    db: Dag.Ledger, db': Dag.Ledger, n: nat, view: View, view': View, m: Message, booked: set<MessageID>,
    invalid: set<MessageID>, enqueued: set<MessageID>, votes: Opinions.Votes)
    requires OneMoreStored(db, db', n, view, view', m) && Dag.WellFormed(db)
    requires Bookings(db, view, booked, invalid, enqueued, votes)
    ensures Bookings(db', view', booked, invalid, enqueued, votes)
  {
    SameColors(db, db', booked);
    StoringKeepsVotes(db, db', booked, votes);
    StoringKeepsColors(db, db', view, view', booked, m.id);
  }

  lemma StoringKeepsApprovals(
    db: Dag.Ledger, db': Dag.Ledger, w: Weights, n: nat, threshold: real, view: View, view': View, m: Message,
    approved: set<MessageID>, log: seq<MessageID>)
    requires OneMoreStored(db, db', n, view, view', m) && Dag.WellFormed(db)
    requires Approvals(db, w, n, threshold, view, approved, log)
    ensures Approvals(db', w, n, threshold, view', approved, log)
  {
    StoringKeepsWitnesses(db, db', n, view, view', approved, m.id);
    SumOfNone(w, {}, n);
    forall id | id in view'
      ensures Weighed(w, n, view'[id]) && Judged(threshold, n, view'[id])
    {
      if id != m.id {
        assert Weighed(w, n, view[id]) && Judged(threshold, n, view[id]);
      }
    }
  }

  // ----- becoming solid -----

  lemma BecomingSolid(db: Dag.Ledger, view: View, view': View, log: seq<MessageID>, id: MessageID)
    requires Solidity(db, view, log) && id in view && !view[id].solid && view' == view[id := view[id].(solid := true)]
    requires Dag.ParentsIn(db, id, SolidIDs(view))
    ensures Solidity(db, view', log + [id]) && SolidIDs(view') == SolidIDs(view) + {id}
  {
    assert forall x :: x in SolidIDs(view') <==> x in SolidIDs(view) + {id};
    OneMoreEvent(log, id);
    OneMoreAfterParents(db, log, id);
  }

  lemma SolidityIsSeparate(
    db: Dag.Ledger, w: Weights, n: nat, threshold: real, view: View, view': View, id: MessageID,
    booked: set<MessageID>, invalid: set<MessageID>, enqueued: set<MessageID>, votes: Opinions.Votes,
    approved: set<MessageID>, log: seq<MessageID>)
    requires id in view && view' == view[id := view[id].(solid := true)]
    ensures Bookings(db, view, booked, invalid, enqueued, votes)
       ==> Bookings(db, view', booked, invalid, enqueued, votes)
    ensures Approvals(db, w, n, threshold, view, approved, log) ==> Approvals(db, w, n, threshold, view', approved, log)
  {
    if Approvals(db, w, n, threshold, view, approved, log) {
      forall m | m in view
        ensures Bits(n, view', m) == Bits(n, view, m)
      {
      }
    }
  }

  // ----- being booked -----

  lemma {:induction false} BookedValid(
    db: Dag.Ledger, view: View, view': View, booked: set<MessageID>, invalid: set<MessageID>,
    enqueued: set<MessageID>, votes: Opinions.Votes, id: MessageID)
    requires Bookings(db, view, booked, invalid, enqueued, votes)
    requires id !in booked && Dag.Bookable(db, id) && Dag.ParentsIn(db, id, booked)
    requires id in view && view' == view[id := view[id].(inheritedColor := Dag.Inherited(db, id))]
    ensures Bookings(db, view', booked + {id}, invalid, enqueued + {id},
                     Opinions.Voted(votes, db[id], Dag.Inherited(db, id)))
  {
    hide Dag.Bookable, Dag.Inherited, LatestVotes, Colored, Opinions.Voted;
    BookableIsStored(db, id);
    OneMoreColored(db, view, view', booked, id);
    OneMoreVote(db, booked, votes, id);
  }

  lemma {:induction false} BookableIsStored(db: Dag.Ledger, id: MessageID)
    requires Dag.Bookable(db, id)
    ensures id in db
  {
  }

  lemma {:induction false} OneMoreColored(
    db: Dag.Ledger, view: View, view': View, booked: set<MessageID>, id: MessageID)
    requires Colored(db, view, booked) && id !in booked && id in db
    requires view' == view[id := view[id].(inheritedColor := Dag.Inherited(db, id))]
    ensures Colored(db, view', booked + {id})
  {
    hide Dag.Inherited;
  }

  lemma BookedInvalid(
    db: Dag.Ledger, view: View, booked: set<MessageID>, invalid: set<MessageID>,
    enqueued: set<MessageID>, votes: Opinions.Votes, id: MessageID)
    requires Bookings(db, view, booked, invalid, enqueued, votes)
    requires id !in booked && id in db && !Dag.Bookable(db, id) && Dag.ParentsIn(db, id, booked)
    ensures Bookings(db, view, booked + {id}, invalid + {id}, enqueued, votes)
  {
    hide Dag.Bookable, Dag.Inherited, Dag.Palette, LatestVotes;
    UncoloredIsNoVote(db, booked, votes, id);
  }

  lemma {:induction false} UncoloredIsNoVote(
    db: Dag.Ledger, booked: set<MessageID>, votes: Opinions.Votes, id: MessageID)
    requires LatestVotes(db, booked, votes) && id in db && !Dag.Bookable(db, id)
    ensures LatestVotes(db, booked + {id}, votes) && Dag.Inherited(db, id) == UNDEFINED
  {
    OneMoreVote(db, booked, votes, id);
  }
}
