/** The colours and votes that a node records, as functions of the messages it has booked (multiverse/booker.go). */
module Voting {
  import opened Messages
  import opened Metadata
  import opened Opinions
  import Dag

  /** Booked messages have their colour, all others have none. */
  ghost predicate Colored(db: Dag.Ledger, view: map<MessageID, Record>, s: set<MessageID>) {
    db.Keys == view.Keys
    && forall id :: id in db ==> view[id].inheritedColor == if id in s then Dag.Inherited(db, id) else UNDEFINED
  }

  /** The message is a vote of `p`. */
  ghost predicate IsVote(db: Dag.Ledger, id: MessageID, p: PeerID) {
    id in db && db[id].issuer == p && Dag.Inherited(db, id) != UNDEFINED
  }

  /** `o` is the vote with the highest sequence number among the messages of `s` by `p`. */
  ghost predicate IsLatest(db: Dag.Ledger, s: set<MessageID>, p: PeerID, o: Opinion) {
    && (exists id :: id in s && IsVote(db, id, p) && o == Opinion(Dag.Inherited(db, id), db[id].sequenceNumber))
    && forall id :: id in s && IsVote(db, id, p) ==> db[id].sequenceNumber <= o.sequenceNumber
  }

  /** The recorded votes are the latest ones among the messages of `s`. */
  ghost predicate LatestVotes(db: Dag.Ledger, s: set<MessageID>, votes: Votes) {
    && (forall p :: p in votes ==> IsLatest(db, s, p, votes[p]))
    && forall id :: id in s && id in db && Dag.Inherited(db, id) != UNDEFINED ==> db[id].issuer in votes
  }

  /** Issuers number their messages without repetition. */
  ghost predicate Numbered(db: Dag.Ledger) {
    forall a, b ::
      a in db && b in db && db[a].issuer == db[b].issuer && db[a].sequenceNumber == db[b].sequenceNumber ==> a == b
  }

  /** The latest votes are determined by the messages alone. */
  lemma LatestVotesAreUnique(db: Dag.Ledger, s: set<MessageID>, votes: Votes, votes': Votes)
    requires Numbered(db) && LatestVotes(db, s, votes) && LatestVotes(db, s, votes')
    ensures votes == votes'
  {
    VotersAgree(db, s, votes, votes');
    VotersAgree(db, s, votes', votes);
    assert forall p :: p in votes ==> p in votes' && votes'[p] == votes[p];
    assert forall p :: p in votes' ==> p in votes;
  }

  lemma VotersAgree(db: Dag.Ledger, s: set<MessageID>, votes: Votes, votes': Votes)
    requires Numbered(db) && LatestVotes(db, s, votes) && LatestVotes(db, s, votes')
    ensures forall p :: p in votes ==> p in votes' && votes'[p] == votes[p]
  {
    forall p | p in votes
      ensures p in votes' && votes'[p] == votes[p]
    {
      assert IsLatest(db, s, p, votes[p]);
      var id :| id in s && IsVote(db, id, p) && votes[p] == Opinion(Dag.Inherited(db, id), db[id].sequenceNumber);
      assert IsLatest(db, s, p, votes'[p]);
      var id' :| id' in s && IsVote(db, id', p) && votes'[p] == Opinion(Dag.Inherited(db, id'), db[id'].sequenceNumber);
      assert db[id].sequenceNumber == db[id'].sequenceNumber;
    }
  }

  /** Booking one more message updates the votes as the opinion manager does. */
  lemma {:induction false} OneMoreVote(db: Dag.Ledger, s: set<MessageID>, votes: Votes, x: MessageID)
    requires LatestVotes(db, s, votes) && x in db
    ensures LatestVotes(db, s + {x}, Voted(votes, db[x], Dag.Inherited(db, x)))
  {
    var m, color := db[x], Dag.Inherited(db, x);
    var votes' := Voted(votes, m, color);
    forall p | p in votes'
      ensures IsLatest(db, s + {x}, p, votes'[p])
    {
      if p == m.issuer && color != UNDEFINED {
        assert IsVote(db, x, p);
        if p in votes {
          assert IsLatest(db, s, p, votes[p]);
        }
      } else {
        assert IsLatest(db, s, p, votes[p]);
      }
    }
  }

  /** Storing a message changes no vote, and no colour of a solid message. */
  lemma StoringKeepsVotes(db: Dag.Ledger, db': Dag.Ledger, s: set<MessageID>, votes: Votes)
    requires Dag.WellFormed(db) && Dag.Extends(db, db') && Dag.Closed(db, s) && LatestVotes(db, s, votes)
    ensures LatestVotes(db', s, votes)
  {
    SameColors(db, db', s);
    forall id, p | id in s
      ensures IsVote(db, id, p) <==> IsVote(db', id, p)
    {
    }
    forall p | p in votes
      ensures IsLatest(db', s, p, votes[p])
    {
      assert IsLatest(db, s, p, votes[p]);
    }
  }

  lemma {:induction false} SameColors(db: Dag.Ledger, db': Dag.Ledger, s: set<MessageID>)
    requires Dag.WellFormed(db) && Dag.Extends(db, db') && Dag.Closed(db, s)
    ensures forall id :: id in s ==> id in db && id in db' && Dag.Inherited(db, id) == Dag.Inherited(db', id)
    ensures forall id :: id in s ==> (Dag.Bookable(db, id) <==> Dag.Bookable(db', id))
  {
    forall id | id in s
      ensures Dag.Inherited(db, id) == Dag.Inherited(db', id) && (Dag.Bookable(db, id) <==> Dag.Bookable(db', id))
    {
      Dag.ClosedIsSolid(db, s, id);
      Dag.ColorFixed(db, db', id);
    }
  }

  lemma StoringKeepsColors(
    db: Dag.Ledger, db': Dag.Ledger, view: map<MessageID, Record>, view': map<MessageID, Record>,
    s: set<MessageID>, id: MessageID)
    requires Dag.WellFormed(db) && Dag.Extends(db, db') && Dag.Closed(db, s) && Colored(db, view, s)
    requires id !in db && db'.Keys == db.Keys + {id} == view'.Keys && view'[id].inheritedColor == UNDEFINED
    requires forall m :: m in view ==> view'[m] == view[m]
    ensures Colored(db', view', s)
  {
    SameColors(db, db', s);
  }
}
