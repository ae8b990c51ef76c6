/** When the ICCA+ scheduler of a node schedules a message, as facts about the log of its events. */
module Schedule {
  import opened Messages
  import opened Metadata
  import Dag
  import Storage

  type View = map<MessageID, Record>

  /** How often a message is scheduled without waiting: as a validation block, and as an own message of a spammer. */
  function Immediate(peer: PeerID, spamming: bool, m: Message): nat {
    (if m.validation then 1 else 0) + (if m.issuer == peer && spamming then 1 else 0)
  }

  ghost function ConfirmedIDs(view: View): set<MessageID> {
    set id | id in view && view[id].confirmed
  }

  /** At the event every parent had been scheduled before, or made eligible by being confirmed by then. */
  ghost predicate Ripe(
    db: Dag.Ledger, confEligible: bool, log: seq<MessageID>, confirmed: seq<set<MessageID>>, i: nat)
    requires i < |log| == |confirmed| && log[i] in db
  {
    forall p :: p in db[log[i]].Parents() && p != GENESIS ==> p in log[..i] || (confEligible && p in confirmed[i])
  }

  /** The event is none of those that came without waiting. */
  ghost predicate Waited(db: Dag.Ledger, peer: PeerID, spamming: bool, log: seq<MessageID>, i: nat)
    requires i < |log| && log[i] in db
  {
    multiset(log[..i])[log[i]] >= Immediate(peer, spamming, db[log[i]])
  }

  /**
   The log names the messages that are recorded as scheduled, with those that were confirmed by then; whoever waited
   had eligible parents.
   */
  ghost predicate Justified(
    db: Dag.Ledger, view: View, confEligible: bool, peer: PeerID, spamming: bool, log: seq<MessageID>,
    confirmed: seq<set<MessageID>>)
  {
    && (forall id :: id in log <==> id in view && view[id].scheduled)
    && |confirmed| == |log| && (forall i :: 0 <= i < |confirmed| ==> confirmed[i] <= ConfirmedIDs(view))
    && forall i :: 0 <= i < |log| ==>
         log[i] in db && (Waited(db, peer, spamming, log, i) ==> Ripe(db, confEligible, log, confirmed, i))
  }

  /** Each message was scheduled as often as it need not wait, and once more if a tick served it. */
  ghost predicate Counted(
    db: Dag.Ledger, peer: PeerID, spamming: bool, log: seq<MessageID>,
    enqueued: set<MessageID>, popped: set<MessageID>, served: set<MessageID>)
  {
    && enqueued <= db.Keys && served <= popped && served <= enqueued
    && forall id :: multiset(log)[id] == Times(db, peer, spamming, enqueued, served, id)
  }

  ghost function Times(
    db: Dag.Ledger, peer: PeerID, spamming: bool, enqueued: set<MessageID>, served: set<MessageID>, id: MessageID): nat
  {
    (if id in enqueued && id in db then Immediate(peer, spamming, db[id]) else 0) + (if id in served then 1 else 0)
  }

  /** Nothing was scheduled, and confirmed messages stayed so. */
  ghost predicate ScheduleKept(view: View, view': View) {
    && (forall id :: id in view ==> id in view' && view'[id].scheduled == view[id].scheduled)
    && (forall id :: id in view && view[id].confirmed ==> id in view' && view'[id].confirmed)
    && forall id :: id in view' && id !in view ==> !view'[id].scheduled
  }

  lemma JustifiedKept(
    db: Dag.Ledger, db': Dag.Ledger, view: View, view': View, confEligible: bool, peer: PeerID, spamming: bool,
    log: seq<MessageID>, confirmed: seq<set<MessageID>>)
    requires Justified(db, view, confEligible, peer, spamming, log, confirmed)
    requires Dag.Extends(db, db') && ScheduleKept(view, view')
    ensures Justified(db', view', confEligible, peer, spamming, log, confirmed)
  {
    forall i | 0 <= i < |log|
      ensures log[i] in db' && (Waited(db', peer, spamming, log, i) ==> Ripe(db', confEligible, log, confirmed, i))
    {
      var id := log[i];
      assert id in db && db'[id] == db[id];
      if Waited(db, peer, spamming, log, i) {
        assert Ripe(db, confEligible, log, confirmed, i);
      }
    }
    MoreConfirmed(view, view');
    forall i | 0 <= i < |confirmed|
      ensures confirmed[i] <= ConfirmedIDs(view')
    {
    }
  }

  lemma MoreConfirmed(view: View, view': View)
    requires ScheduleKept(view, view')
    ensures ConfirmedIDs(view) <= ConfirmedIDs(view')
  {
    forall id | id in ConfirmedIDs(view)
      ensures id in ConfirmedIDs(view')
    {
    }
  }

  lemma CountedKept(
    db: Dag.Ledger, db': Dag.Ledger, peer: PeerID, spamming: bool, log: seq<MessageID>,
    enqueued: set<MessageID>, popped: set<MessageID>, served: set<MessageID>)
    requires Counted(db, peer, spamming, log, enqueued, popped, served) && Dag.Extends(db, db')
    ensures Counted(db', peer, spamming, log, enqueued, popped, served)
  {
    forall id
      ensures multiset(log)[id] == Times(db', peer, spamming, enqueued, served, id)
    {
      assert multiset(log)[id] == Times(db, peer, spamming, enqueued, served, id);
    }
    forall id | id in enqueued
      ensures id in db'
    {
      assert id in db;
    }
  }

  /** One more event, of a message that need not wait or has eligible parents. */
  lemma OneMoreScheduled(
    db: Dag.Ledger, view: View, confEligible: bool, peer: PeerID, spamming: bool, log: seq<MessageID>,
    confirmed: seq<set<MessageID>>, id: MessageID)
    requires Justified(db, view, confEligible, peer, spamming, log, confirmed) && id in db && id in view
    requires multiset(log)[id] < Immediate(peer, spamming, db[id])
          || Storage.ParentsEligible(db, view, confEligible, id)
    ensures Justified(db, view[id := view[id].(scheduled := true)], confEligible, peer, spamming, log + [id],
                      confirmed + [ConfirmedIDs(view)])
  {
    var view', log', confirmed' := view[id := view[id].(scheduled := true)], log + [id],
                                                        confirmed + [ConfirmedIDs(view)];
    forall i | 0 <= i < |log'|
      ensures log'[i] in db && (Waited(db, peer, spamming, log', i) ==> Ripe(db, confEligible, log', confirmed', i))
    {
      if i < |log| {
        assert log'[..i] == log[..i];
        assert log[i] in db && (Waited(db, peer, spamming, log, i) ==> Ripe(db, confEligible, log, confirmed, i));
      } else {
        assert log'[..i] == log;
      }
    }
    assert ConfirmedIDs(view') == ConfirmedIDs(view);
    forall x
      ensures x in log' <==> x in view' && view'[x].scheduled
    {
      assert x in log <==> x in view && view[x].scheduled;
    }
  }

  /** A message enters, after it was scheduled as often as it need not wait. */
  lemma OneMoreEnqueued(
    db: Dag.Ledger, peer: PeerID, spamming: bool, log: seq<MessageID>,
    enqueued: set<MessageID>, popped: set<MessageID>, served: set<MessageID>, id: MessageID)
    requires Counted(db, peer, spamming, log, enqueued, popped, served) && id in db && id !in enqueued
    ensures multiset(log)[id] == 0
    ensures Counted(db, peer, spamming, log + Repeat(id, Immediate(peer, spamming, db[id])), enqueued + {id}, popped,
                    served)
  {
    var k := Immediate(peer, spamming, db[id]);
    RepeatCounts(id, k);
    forall x
      ensures multiset(log + Repeat(id, k))[x] == Times(db, peer, spamming, enqueued + {id}, served, x)
    {
      assert multiset(log)[x] == Times(db, peer, spamming, enqueued, served, x);
    }
  }

  lemma MorePopped(
    db: Dag.Ledger, peer: PeerID, spamming: bool, log: seq<MessageID>,
    enqueued: set<MessageID>, popped: set<MessageID>, popped': set<MessageID>, served: set<MessageID>)
    requires Counted(db, peer, spamming, log, enqueued, popped, served) && popped <= popped'
    ensures Counted(db, peer, spamming, log, enqueued, popped', served)
  {
  }

  lemma OneMoreServed(
    db: Dag.Ledger, peer: PeerID, spamming: bool, log: seq<MessageID>,
    enqueued: set<MessageID>, popped: set<MessageID>, served: set<MessageID>, id: MessageID)
    requires Counted(db, peer, spamming, log, enqueued, popped, served) && id in enqueued && id !in served
    ensures Counted(db, peer, spamming, log + [id], enqueued, popped + {id}, served + {id})
  {
    forall x
      ensures multiset(log + [id])[x] == Times(db, peer, spamming, enqueued, served + {id}, x)
    {
      assert multiset(log)[x] == Times(db, peer, spamming, enqueued, served, x);
    }
  }

  function Repeat(id: MessageID, k: nat): seq<MessageID> {
    seq(k, _ => id)
  }

  lemma {:induction false} RepeatCounts(id: MessageID, k: nat)
    ensures forall x :: multiset(Repeat(id, k))[x] == if x == id then k else 0
  {
    if k > 0 {
      RepeatCounts(id, k - 1);
      assert Repeat(id, k) == Repeat(id, k - 1) + [id];
    }
  }

  lemma RepeatTwice(id: MessageID, k: nat, l: nat)
    ensures Repeat(id, k) + Repeat(id, l) == Repeat(id, k + l)
  {
  }

  /** A message that has to wait is scheduled at most once, by a tick, and then its parents are eligible. */
  lemma OnceAndAfterParents(
    db: Dag.Ledger, view: View, confEligible: bool, peer: PeerID, spamming: bool, log: seq<MessageID>,
    confirmed: seq<set<MessageID>>, enqueued: set<MessageID>, popped: set<MessageID>, served: set<MessageID>,
    id: MessageID)
    requires Justified(db, view, confEligible, peer, spamming, log, confirmed)
    requires Counted(db, peer, spamming, log, enqueued, popped, served)
    requires id in db && Immediate(peer, spamming, db[id]) == 0 && id in view && view[id].scheduled
    ensures multiset(log)[id] == 1 && id in served && id in popped
    ensures Storage.ParentsEligible(db, view, confEligible, id)
  {
    assert id in log && id in multiset(log);
    assert multiset(log)[id] == Times(db, peer, spamming, enqueued, served, id);
    var i :| 0 <= i < |log| && log[i] == id;
    assert Waited(db, peer, spamming, log, i) && Ripe(db, confEligible, log, confirmed, i);
    forall p | p in db[id].Parents() && p != GENESIS
      ensures p in view && view[p].Eligible(confEligible)
    {
      if p in log[..i] {
        assert p in log;
      } else {
        assert p in confirmed[i] && confirmed[i] <= ConfirmedIDs(view);
      }
    }
  }
}
