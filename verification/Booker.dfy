/** Colours a solid message, counts it as a vote and hands it to the scheduler (multiverse/booker.go). */
module Booker {
  import opened Messages
  import opened Pipeline
  import opened Voting
  import Buffers
  import Dag
  import IccaScheduler
  import Listing
  import Opinions
  import Schedule
  import Storage

  type View = Buffers.View

  class Booker {
    const storage: Storage.Storage
    const opinions: Opinions.OpinionManager
    const scheduler: IccaScheduler.ICCAScheduler
    ghost var booked: set<MessageID>  // the messages that were booked
    ghost var bookedLog: seq<MessageID> // the same, in the order of booking
    ghost var invalid: set<MessageID> // those of them that were reported invalid

    ghost predicate Linked()
      reads storage, opinions
    {
      && scheduler.storage == storage && opinions.config == storage.config == scheduler.config
      && this !in storage.footprint && scheduler !in storage.footprint
      && opinions !in storage.footprint && storage !in storage.footprint
    }

    /** Linked to parts that are in order, which leave nothing to be done. */
    ghost predicate Ready()
      reads this, storage, storage.footprint, opinions, scheduler
    {
      Linked() && scheduler.Valid({}) && scheduler.Counted() && opinions.Valid() && opinions.Settled()
    }

    ghost predicate Valid()
      reads this, storage, storage.footprint, opinions, scheduler
    {
      && Ready()
      && Bookings(storage.messageDB, storage.view, booked, invalid, scheduler.enqueued, opinions.peerOpinions)
      && Tabled()
    }

    /** The table of colours is the one of the messages booked so far, in their order. */
    ghost predicate Tabled()
      reads this`booked, this`bookedLog, storage`messageDB, opinions`peerOpinions, opinions`approvalWeights
    {
      Listing.Tabled(storage.messageDB, booked, bookedLog, opinions.peerOpinions, opinions.approvalWeights.Keys)
    }

    constructor (opinions: Opinions.OpinionManager, scheduler: IccaScheduler.ICCAScheduler)
      requires scheduler.Valid({}) && scheduler.Counted()
      requires scheduler.storage.messageDB == map[] && scheduler.enqueued == {}
      requires opinions.Valid() && opinions.Settled() && opinions.peerOpinions == map[]
      requires opinions.approvalWeights == map[]
      requires opinions.config == scheduler.config && opinions !in scheduler.storage.footprint
      requires scheduler !in scheduler.storage.footprint
      ensures Valid() && booked == {} && invalid == {} && bookedLog == []
      ensures this.opinions == opinions && this.scheduler == scheduler && storage == scheduler.storage
    {
      this.opinions, this.scheduler, storage := opinions, scheduler, scheduler.storage;
      booked, bookedLog, invalid := {}, [], {};
    }

    method Book(id: MessageID)
      requires Valid() && id in storage.messageDB && storage.view[id].solid && id !in booked
      requires Dag.ParentsIn(storage.messageDB, id, booked)
      modifies this, opinions, storage`view, storage.footprint
      modifies scheduler`nonReadyMap, scheduler`issuerQueues, scheduler`readyLen, scheduler`enqueued, scheduler`popped,
        scheduler`scheduledLog, scheduler`confirmedThen
      ensures Valid() && booked == old(booked) + {id} && bookedLog == old(bookedLog) + [id]
      ensures OnlyBooked(old(storage.view), storage.view)
      ensures Buffers.OnlyScheduled(old(storage.view), storage.view, id,
                                    Dag.Bookable(storage.messageDB, id) && scheduler.Bypasses(storage.messageDB[id]))
      ensures old(opinions.notices) <= opinions.notices
      ensures Buffers.Flows(scheduler.config.maxBuffer, old(scheduler.Flow()), scheduler.Flow())
    {
      hide Bookings, Dag.ParentsIn, OnlyBooked, IccaScheduler.ICCAScheduler.Placed, IccaScheduler.ICCAScheduler.History,
        Storage.Storage.Valid, Opinions.OpinionManager.Valid, Opinions.OpinionManager.Settled, Listing.Tabled,
        Dag.WellFormed, Storage.ChildrenIndexed, Schedule.Counted;
      ghost var db, votes, colors := storage.messageDB, opinions.peerOpinions, opinions.approvalWeights.Keys;
      Uncovered(db, storage.view, booked, invalid, scheduler.enqueued, votes);
      scheduler.StorageInOrder({});
      var ok, color := InheritColor(id);
      Listing.OneMoreTabled(db, booked, bookedLog, votes, colors, id);
      if ok {
        BookValid(id, color);
      } else {
        invalid := invalid + {id};
        BookedInvalid(db, storage.view, booked, old(invalid), scheduler.enqueued, votes, id);
        NothingBooked(storage.view);
        InvalidIsNoVote(db, votes, colors, id);
      }
      booked, bookedLog := booked + {id}, bookedLog + [id];
    }

    /** Books a message that inherits `color`. */
    method BookValid(id: MessageID, color: Color)
      requires Valid() && id in storage.messageDB && storage.view[id].solid && id !in booked
      requires Dag.ParentsIn(storage.messageDB, id, booked)
      requires Dag.Bookable(storage.messageDB, id) && color == Dag.Inherited(storage.messageDB, id)
      modifies opinions, storage`view, storage.footprint
      modifies scheduler`nonReadyMap, scheduler`issuerQueues, scheduler`readyLen, scheduler`enqueued, scheduler`popped,
        scheduler`scheduledLog, scheduler`confirmedThen
      ensures Ready() && OnlyBooked(old(storage.view), storage.view) && old(opinions.notices) <= opinions.notices
      ensures Buffers.OnlyScheduled(old(storage.view), storage.view, id, scheduler.Bypasses(storage.messageDB[id]))
      ensures Bookings(storage.messageDB, storage.view, booked + {id}, invalid, scheduler.enqueued,
                       opinions.peerOpinions)
      ensures opinions.peerOpinions == Opinions.Voted(old(opinions.peerOpinions), storage.messageDB[id], color)
      ensures opinions.approvalWeights.Keys
           == Opinions.Listed(old(opinions.approvalWeights).Keys, old(opinions.peerOpinions), storage.messageDB[id],
                              color)
      ensures Buffers.Flows(scheduler.config.maxBuffer, old(scheduler.Flow()), scheduler.Flow())
    {
      hide Bookings, Dag.ParentsIn, OnlyBooked, IccaScheduler.ICCAScheduler.Placed, IccaScheduler.ICCAScheduler.History,
        Opinions.OpinionManager.Valid, Opinions.OpinionManager.Settled, Listing.Tabled, Dag.Inherited, Dag.Bookable,
        Buffers.OnlyMarked, Opinions.Voted, Opinions.Listed, Schedule.Counted;
      scheduler.Recorded(id, {});
      NotEnqueued(storage.messageDB, storage.view, booked, invalid, scheduler.enqueued, opinions.peerOpinions, id);
      ghost var db, enqueued, votes := storage.messageDB, scheduler.enqueued, opinions.peerOpinions;
      SetColor(id, color);
      ghost var view := storage.view;
      BookedValid(db, old(storage.view), view, booked, invalid, enqueued, votes, id);
      MessageBooked(id, color);
      MarkingKeeps(db, view, storage.view, booked + {id}, invalid, scheduler.enqueued, opinions.peerOpinions);
      ColoredThenMarked(old(storage.view), id, color, storage.view);
    }

    /** The two handlers of the event come in any order. */
    method MessageBooked(id: MessageID, color: Color)
      requires Ready() && id in storage.messageDB && storage.view[id].solid && id !in scheduler.enqueued
      modifies opinions, storage`view, storage.footprint
      modifies scheduler`nonReadyMap, scheduler`issuerQueues, scheduler`readyLen, scheduler`enqueued, scheduler`popped,
        scheduler`scheduledLog, scheduler`confirmedThen
      ensures Ready() && Buffers.OnlyMarked(old(storage.view), storage.view)
      ensures old(opinions.notices) <= opinions.notices
      ensures opinions.peerOpinions == Opinions.Voted(old(opinions.peerOpinions), storage.messageDB[id], color)
      ensures opinions.approvalWeights.Keys
           == Opinions.Listed(old(opinions.approvalWeights).Keys, old(opinions.peerOpinions), storage.messageDB[id],
                              color)
      ensures scheduler.enqueued == old(scheduler.enqueued) + {id}
      ensures Buffers.OnlyScheduled(old(storage.view), storage.view, id, scheduler.Bypasses(storage.messageDB[id]))
      ensures Buffers.Flows(scheduler.config.maxBuffer, old(scheduler.Flow()), scheduler.Flow())
    {
      hide IccaScheduler.ICCAScheduler.Placed, IccaScheduler.ICCAScheduler.History, Storage.Storage.Valid,
        Dag.WellFormed, Buffers.OnlyMarked, Opinions.OpinionManager.Valid, Opinions.OpinionManager.Settled,
        Opinions.Voted, Opinions.Listed, Storage.ChildrenIndexed, Schedule.Counted, Buffers.Flows,
        Buffers.OnlyScheduled,
        IccaScheduler.ICCAScheduler.Fed, IccaScheduler.ICCAScheduler.Foreseen, IccaScheduler.DroppedFromLongest,
        IccaScheduler.Lengths, IccaScheduler.LengthsAfter, Buffers.HeadsDropped,
        Buffers.QueuesAre, Schedule.Repeat, Schedule.Immediate,
        IccaScheduler.ICCAScheduler.Bypasses;
      scheduler.StorageInOrder({});
      scheduler.IssuerInRange(id);
      Dag.StoredIsWellFormed(storage.messageDB, id);
      if * {
        opinions.FormOpinion(storage.messageDB[id], color);
        ghost var filled, drops := scheduler.EnqueueMessage(id);
      } else {
        ghost var filled, drops := scheduler.EnqueueMessage(id);
        opinions.FormOpinion(storage.messageDB[id], color);
      }
    }

    method SetColor(id: MessageID, color: Color)
      requires Ready() && id in storage.messageDB
      modifies storage`view, storage.footprint
      ensures Ready()
      ensures storage.view == old(storage.view)[id := old(storage.view)[id].(inheritedColor := color)]
    {
      label before:
      hide IccaScheduler.ICCAScheduler.Placed, IccaScheduler.ICCAScheduler.History, Storage.Storage.Valid,
        Dag.WellFormed, Storage.ChildrenIndexed, Buffers.SolidHasParents, Opinions.OpinionManager.Valid,
        Opinions.OpinionManager.Settled, Schedule.Counted;
      scheduler.StorageInOrder({});
      scheduler.ParentsInOrder();
      storage.SetInheritedColor(id, color);
      Buffers.SolidityKept(storage.messageDB, old(storage.view), storage.view);
      scheduler.StorageChanged@before({});
    }

    /** The colours that the strong parents inherited, in any order. */
    method ColorsOfStrongParents(id: MessageID) returns (colors: seq<Color>)
      requires storage.Valid() && id in storage.messageDB
      requires forall p :: p in storage.messageDB[id].strongParents && p != GENESIS ==> p in storage.messageDB
      ensures forall c :: c in colors <==> c in ColorsOf(storage.view, storage.messageDB[id].strongParents)
    {
      colors := [];
      ghost var parents := storage.messageDB[id].strongParents;
      var todo := storage.messageDB[id].strongParents;
      while todo != {}
        invariant todo <= parents
        invariant forall c :: c in colors <==> c in ColorsOf(storage.view, parents - todo)
      {
        hide Storage.Storage.Valid;
        Inhabited(todo);
        var strongParent :| strongParent in todo;
        OneMoreParent(storage.view, parents - todo, strongParent);
        if strongParent != GENESIS {
          colors := colors + [storage.MetadataOf(strongParent).inheritedColor];
        }
        assert parents - todo + {strongParent} == parents - (todo - {strongParent});
        todo := todo - {strongParent};
      }
      assert parents - {} == parents;
    }

    /** Whether the colours agree, and on which. */
    method InheritColor(id: MessageID) returns (ok: bool, inheritedColor: Color)
      requires storage.Valid() && Dag.WellFormed(storage.messageDB) && id in storage.messageDB
      requires Colored(storage.messageDB, storage.view, booked) && Dag.ParentsIn(storage.messageDB, id, booked)
      requires Dag.Closed(storage.messageDB, booked)
      ensures ok <==> Dag.Bookable(storage.messageDB, id)
      ensures ok ==> inheritedColor == Dag.Inherited(storage.messageDB, id)
    {
      hide Storage.Storage.Valid, Dag.WellFormed, Dag.Palette, Dag.Inherited, Dag.Closed, Dag.ParentsIn, Dag.Bookable,
        Colored, ColorsOf;
      PaletteIsRecorded(storage.messageDB, storage.view, booked, id);
      ghost var db, payload := storage.messageDB, storage.messageDB[id].payload;
      var colors := ColorsOfStrongParents(id);
      inheritedColor := storage.messageDB[id].payload;
      ok := true;
      for i := 0 to |colors|
        invariant ok && Blended(payload, colors[..i], inheritedColor)
      {
        assert colors[..i + 1] == colors[..i] + [colors[i]];
        if colors[i] != UNDEFINED {
          if inheritedColor != UNDEFINED && inheritedColor != colors[i] {
            ConflictIsInvalid(db, id, colors[i], inheritedColor);
            ok := false;
            return;
          }
          inheritedColor := colors[i];
        }
      }
      assert colors[..|colors|] == colors;
      Dag.BlendIsInherited(db, id, inheritedColor);
    }
  }

  lemma {:induction false} ConflictIsInvalid(db: Dag.Ledger, id: MessageID, c: Color, d: Color)
    requires id in db && c in Dag.Palette(db, id) && d in Dag.Palette(db, id) && c != d
    ensures !Dag.Bookable(db, id)
  {
  }

  /** The colours that the records show for some messages. */
  ghost function ColorsOf(view: View, parents: set<MessageID>): set<Color> {
    set p | p in parents && p != GENESIS && p in view :: view[p].inheritedColor
  }

  lemma OneMoreParent(view: View, parents: set<MessageID>, p: MessageID)
    requires p == GENESIS || p in view
    ensures forall c :: c in ColorsOf(view, parents + {p})
                   <==> c in ColorsOf(view, parents) || (p != GENESIS && c == view[p].inheritedColor)
  {
  }

  /** The colour that a payload and the colours met so far agree on. */
  ghost predicate Blended(payload: Color, colors: seq<Color>, c: Color) {
    && (payload != UNDEFINED ==> payload == c) && (forall d :: d in colors && d != UNDEFINED ==> d == c)
    && (c != UNDEFINED ==> c == payload || c in colors)
  }

  /** What the records of the parents show is what they inherited. */
  lemma {:induction false} PaletteIsRecorded(db: Dag.Ledger, view: View, booked: set<MessageID>, id: MessageID)
    requires Dag.WellFormed(db) && Colored(db, view, booked) && Dag.Closed(db, booked)
    requires id in db && Dag.ParentsIn(db, id, booked)
    ensures Dag.Palette(db, id) == {db[id].payload} + ColorsOf(view, db[id].strongParents) - {UNDEFINED}
    ensures forall p :: p in db[id].strongParents && p != GENESIS ==> p in db
  {
    forall p | p in db[id].strongParents && p != GENESIS
      ensures 0 < p < id && p in view && view[p].inheritedColor == Dag.Inherited(db, p)
    {
      assert p in db[id].Parents();
    }
    var inherited := set p | p in db[id].strongParents && 0 < p < id :: Dag.Inherited(db, p);
    assert inherited == ColorsOf(view, db[id].strongParents);
  }

  lemma {:induction false} InvalidIsNoVote(
    db: Dag.Ledger, votes: Opinions.Votes, colors: set<Color>, id: MessageID)
    requires id in db && !Dag.Bookable(db, id)
    ensures Opinions.Voted(votes, db[id], Dag.Inherited(db, id)) == votes
    ensures Opinions.Listed(colors, votes, db[id], Dag.Inherited(db, id)) == colors
  {
  }

  lemma NotEnqueued(
    db: Dag.Ledger, view: View, booked: set<MessageID>, invalid: set<MessageID>,
    enqueued: set<MessageID>, votes: Opinions.Votes, id: MessageID)
    requires Bookings(db, view, booked, invalid, enqueued, votes) && id !in booked
    ensures id !in enqueued
  {
  }

  lemma NothingBooked(view: View)
    ensures OnlyBooked(view, view)
  {
  }

  lemma ColoredThenMarked(view: View, id: MessageID, color: Color, view': View)
    requires id in view && Buffers.OnlyMarked(view[id := view[id].(inheritedColor := color)], view')
    ensures OnlyBooked(view, view')
  {
  }

  lemma Uncovered(
    db: Dag.Ledger, view: View, booked: set<MessageID>, invalid: set<MessageID>,
    enqueued: set<MessageID>, votes: Opinions.Votes)
    requires Bookings(db, view, booked, invalid, enqueued, votes)
    ensures Colored(db, view, booked) && Dag.Closed(db, booked)
  {
  }
}
