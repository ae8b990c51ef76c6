/** What two nodes have in common when they stored the same messages, whatever order these came in. */
module Convergence {
  import opened Messages
  import opened Metadata
  import opened PeerWeights
  import opened Pipeline
  import opened Voting
  import opened Witnessing
  import Dag
  import Listing
  import Opinions
  import Solidifier

  /** The state of a node as far as it depends on what was stored, and not on when. */
  datatype Snapshot = Snapshot(
    db: Dag.Ledger,
    view: View,
    invalid: set<MessageID>,
    requested: set<MessageID>,
    booked: seq<MessageID>, // in this order
    votes: Opinions.Votes,
    approvalWeights: Opinions.Tally,
    ownOpinion: Color)

  /** Every incremental record equals the plain function of the stored messages that it caches. */
  ghost predicate Settled(w: Weights, n: nat, s: Snapshot) {
    var solid := Dag.SolidSet(s.db);
    && Dag.WellFormed(s.db) && s.db.Keys == s.view.Keys
    && SolidIDs(s.view) == solid && s.requested == Solidifier.MissingSet(s.db)
    && Colored(s.db, s.view, solid) && (forall id :: id in s.invalid <==> id in solid && !Dag.Bookable(s.db, id))
    && WitnessesExact(s.db, n, s.view, solid) && (forall id :: id in s.view ==> Weighed(w, n, s.view[id]))
    && LatestVotes(s.db, solid, s.votes) && Opinions.Tallied(w, n, s.votes, s.approvalWeights)
    && Listing.Order(s.db, solid, s.booked)
    && Listing.Tabled(s.db, solid, s.booked, s.votes, s.approvalWeights.Keys)
    && s.ownOpinion == Opinions.MaxOpinion(s.approvalWeights)
  }

  /** The records of a message agree in everything but readiness, scheduling, confirmation and orphanage. */
  ghost predicate SameRecord(n: nat, r: Record, r': Record)
    requires |r.weightSlice| == SliceLength(n) == |r'.weightSlice|
  {
    && r.solid == r'.solid && r.inheritedColor == r'.inheritedColor && r.weight == r'.weight
    && Witnesses(r.weightSlice, n) == Witnesses(r'.weightSlice, n)
  }

  ghost predicate Agree(n: nat, a: Snapshot, b: Snapshot) {
    && a.view.Keys == b.view.Keys && Sized(n, a.view) && Sized(n, b.view)
    && (forall id :: id in a.view ==> SameRecord(n, a.view[id], b.view[id]))
    && a.invalid == b.invalid && a.requested == b.requested && a.votes == b.votes
    && Opinions.SameWeights(a.approvalWeights, b.approvalWeights)
  }

  /** Delivery order does not matter ... */
  lemma OrderDoesNotMatter(w: Weights, n: nat, a: Snapshot, b: Snapshot)
    requires Settled(w, n, a) && Settled(w, n, b) && a.db == b.db && Numbered(a.db)
    ensures Agree(n, a, b)
  {
    forall id | id in a.view
      ensures SameRecord(n, a.view[id], b.view[id])
    {
      SameRecords(w, n, a, b, id);
    }
    SameInvalid(w, n, a, b);
    LatestVotesAreUnique(a.db, Dag.SolidSet(a.db), a.votes, b.votes);
    forall c
      ensures Opinions.WeightIn(a.approvalWeights, c) == Opinions.WeightIn(b.approvalWeights, c)
    {
    }
  }

  lemma SameRecords(w: Weights, n: nat, a: Snapshot, b: Snapshot, id: MessageID)
    requires Settled(w, n, a) && Settled(w, n, b) && a.db == b.db && id in a.view
    ensures SameRecord(n, a.view[id], b.view[id])
  {
    hide Dag.SolidSet, Dag.Inherited, LatestVotes, Covered, Solidifier.MissingSet, Opinions.Tallied;
    assert id in SolidIDs(a.view) <==> id in SolidIDs(b.view);
    assert forall i :: i in Bits(n, a.view, id) <==> i in Bits(n, b.view, id);
    assert Bits(n, a.view, id) == Bits(n, b.view, id);
    assert Weighed(w, n, a.view[id]) && Weighed(w, n, b.view[id]);
  }

  lemma SameInvalid(w: Weights, n: nat, a: Snapshot, b: Snapshot)
    requires Settled(w, n, a) && Settled(w, n, b) && a.db == b.db
    ensures a.invalid == b.invalid
  {
    hide Dag.SolidSet, Dag.Bookable, Dag.Inherited, LatestVotes, WitnessesExact, Solidifier.MissingSet,
      Opinions.Tallied;
    assert forall id :: id in a.invalid <==> id in b.invalid;
  }

  /** The own opinion is a function of the stored messages and the order in which they were booked. */
  lemma OwnOpinion(w: Weights, n: nat, s: Snapshot)
    requires Settled(w, n, s)
    ensures s.ownOpinion == Listing.OpinionAfter(w, n, s.db, s.booked)
  {
    hide Dag.SolidSet, Dag.WellFormed, Colored, WitnessesExact, LatestVotes, Solidifier.MissingSet, Listing.Order;
    Listing.TallyIsTallied(w, n, s.votes, s.approvalWeights, s.db, s.booked);
  }

  /** ... and for the own opinion as soon as somebody with weight has voted. */
  lemma WeightDecides(w: Weights, n: nat, a: Snapshot, b: Snapshot)
    requires Settled(w, n, a) && Settled(w, n, b) && a.db == b.db && Numbered(a.db)
    requires Listing.Weighty(w, n, a.db, Dag.SolidSet(a.db))
    ensures a.ownOpinion == b.ownOpinion
  {
    Ordered(w, n, a);
    Ordered(w, n, b);
    OwnOpinion(w, n, a);
    OwnOpinion(w, n, b);
    hide Settled, Listing.Order, Listing.Weighty, Dag.Closed, Dag.SolidSet, Listing.OpinionAfter;
    Listing.WeightDecides(w, n, a.db, Dag.SolidSet(a.db));
  }

  /** Without weight it does not matter either, if the smallest colour that may be listed is listed in any case. */
  lemma MessagesDecide(w: Weights, n: nat, a: Snapshot, b: Snapshot)
    requires Settled(w, n, a) && Settled(w, n, b) && a.db == b.db && Numbered(a.db)
    requires Listing.Determined(a.db, Dag.SolidSet(a.db))
    ensures a.ownOpinion == b.ownOpinion
  {
    Ordered(w, n, a);
    Ordered(w, n, b);
    OwnOpinion(w, n, a);
    OwnOpinion(w, n, b);
    hide Settled, Listing.Order, Listing.Determined, Listing.Weighty, Dag.Closed, Dag.SolidSet, Listing.OpinionAfter,
      Dag.WellFormed;
    Listing.OpinionDeterminedIff(w, n, a.db, Dag.SolidSet(a.db));
  }

  lemma Ordered(w: Weights, n: nat, s: Snapshot)
    requires Settled(w, n, s)
    ensures Dag.WellFormed(s.db) && Dag.Closed(s.db, Dag.SolidSet(s.db))
    ensures Listing.Order(s.db, Dag.SolidSet(s.db), s.booked)
  {
    hide Dag.WellFormed, Colored, WitnessesExact, LatestVotes, Solidifier.MissingSet, Listing.Order, Listing.Tabled;
    Dag.SolidSetIsClosed(s.db);
  }
}
