/** Where the enqueued messages of the ICCA+ scheduler reside, as facts about the buffer contents. */
module Buffers {
  import opened Messages
  import opened Metadata
  import opened Heaps
  import Dag
  import Schedule
  import Storage

  type View = map<MessageID, Record>

  /** The two buffers, with the history of what entered and what left them. */
  datatype Contents = Contents(
    nonReady: map<MessageID, Message>,
    queues: seq<seq<Message>>,
    enqueued: set<MessageID>,
    popped: set<MessageID>)

  predicate InQueue(queues: seq<seq<Message>>, m: Message) {
    0 <= m.issuer < |queues| && m in queues[m.issuer]
  }

  /** The queues hold exactly these messages. */
  ghost predicate QueuesAre(db: Dag.Ledger, queues: seq<seq<Message>>, ids: set<MessageID>) {
    forall m: Message :: InQueue(queues, m) <==> m.id in ids && m.id in db && db[m.id] == m
  }

  ghost predicate Queued(db: Dag.Ledger, b: Contents, id: MessageID) {
    id in db && InQueue(b.queues, db[id])
  }

  /** Every queue holds stored messages of its issuer, each once. */
  ghost predicate QueuesHold(db: Dag.Ledger, queues: seq<seq<Message>>) {
    && (forall i, m :: 0 <= i < |queues| && m in queues[i] ==> m.issuer == i && m.id in db && db[m.id] == m)
    && (forall i, m :: 0 <= i < |queues| && m in queues[i] ==> multiset(queues[i])[m] == 1)
    && (forall i :: 0 <= i < |queues| ==> IsHeap(ByTime, queues[i]))
  }

  /** What was enqueued is in exactly one place: not ready, in the queue of its issuer, or popped. */
  ghost predicate Residence(db: Dag.Ledger, b: Contents) {
    && QueuesHold(db, b.queues)
    && (forall id :: id in b.nonReady ==> id in db && b.nonReady[id] == db[id])
    && (forall id :: id in b.enqueued <==> id in b.nonReady || Queued(db, b, id) || id in b.popped)
    && (forall id :: id in b.nonReady ==> !Queued(db, b, id) && id !in b.popped)
    && (forall id :: Queued(db, b, id) ==> id !in b.popped)
  }

  /** Queued messages, and those that left the queues, have eligible parents. */
  ghost predicate QueuedAreEligible(db: Dag.Ledger, view: View, confEligible: bool, b: Contents) {
    && (forall id :: Queued(db, b, id) ==> Storage.ParentsEligible(db, view, confEligible, id))
    && forall id :: id in b.popped ==> id in db && Storage.ParentsEligible(db, view, confEligible, id)
  }

  /** The stored messages that have nothing to wait for. */
  ghost function EligibleSet(db: Dag.Ledger, view: View, confEligible: bool): set<MessageID> {
    set id | id in db && Storage.ParentsEligible(db, view, confEligible, id)
  }

  lemma EligibleHasParents(db: Dag.Ledger, view: View, confEligible: bool, id: MessageID)
    ensures id in EligibleSet(db, view, confEligible)
       <==> id in db && Storage.ParentsEligible(db, view, confEligible, id)
  {
  }

  /** Messages that are not ready have an ineligible parent, unless a parent just became eligible. */
  ghost predicate WaitingForParents(
    db: Dag.Ledger, view: View, confEligible: bool, b: Contents, news: set<MessageID>) {
    forall id :: id in b.nonReady && id in db && Storage.ParentsEligible(db, view, confEligible, id) ==>
      exists p :: p in news && p in db[id].Parents()
  }

  ghost predicate Sorted(db: Dag.Ledger, view: View, confEligible: bool, b: Contents, news: set<MessageID>) {
    && Residence(db, b) && QueuedAreEligible(db, view, confEligible, b)
    && WaitingForParents(db, view, confEligible, b, news)
  }

  lemma SortedQueues(db: Dag.Ledger, view: View, confEligible: bool, b: Contents, news: set<MessageID>)
    requires Sorted(db, view, confEligible, b, news)
    ensures QueuesHold(db, b.queues)
  {
  }

  lemma WaitingIsStored(
    db: Dag.Ledger, view: View, confEligible: bool, b: Contents, news: set<MessageID>, id: MessageID)
    requires Dag.WellFormed(db) && Sorted(db, view, confEligible, b, news) && id in b.nonReady
    ensures id in db && b.nonReady[id] == db[id] && db[id].id == id && QueuesHold(db, b.queues)
  {
  }

  /** Solid messages have their parents stored. */
  ghost predicate SolidHasParents(db: Dag.Ledger, view: View) {
    forall id :: id in db && id in view && view[id].solid ==> Dag.ParentsIn(db, id, db.Keys)
  }

  lemma SolidityKept(db: Dag.Ledger, view: View, view': View)
    requires SolidHasParents(db, view) && view.Keys == view'.Keys
    requires forall id :: id in view ==> view'[id].solid == view[id].solid
    ensures SolidHasParents(db, view')
  {
  }

  lemma SolidWithParents(db: Dag.Ledger, view: View, view': View, id: MessageID)
    requires SolidHasParents(db, view) && id in db && id in view && view.Keys == db.Keys
    requires view' == view[id := view[id].(solid := true)]
    requires Dag.ParentsIn(db, id, set p | p in view && view[p].solid)
    ensures SolidHasParents(db, view') && view'.Keys == view.Keys
    ensures forall confEligible: bool :: NothingNewEligible(view, view', confEligible)
    ensures forall m :: m in view && view[m].solid ==> view'[m].solid
  {
    assert view'.Keys == view.Keys;
  }

  /** What schedulers change of a record: its marks of being ready and scheduled, and they only set them. */
  ghost predicate OnlyMarked(view: View, view': View) {
    && view.Keys == view'.Keys
    && forall id :: id in view ==>
         && view'[id] == view[id].(ready := view'[id].ready, scheduled := view'[id].scheduled)
         && (view[id].scheduled ==> view'[id].scheduled) && (view[id].ready ==> view'[id].ready)
  }

  /** The messages that are scheduled now are those that were, and perhaps `id`. */
  ghost predicate OnlyScheduled(view: View, view': View, id: MessageID, really: bool) {
    && view.Keys == view'.Keys
    && forall x :: x in view' ==> (view'[x].scheduled <==> view[x].scheduled || (x == id && really))
  }

  ghost predicate OnlyReadied(view: View, view': View) {
    && view.Keys == view'.Keys
    && forall id :: id in view ==>
         view'[id] == view[id].(ready := view'[id].ready) && (view[id].ready ==> view'[id].ready)
  }

  lemma NothingMarked(a: View)
    ensures OnlyMarked(a, a)
  {
  }

  lemma NothingReadied(view: View)
    ensures OnlyReadied(view, view)
  {
  }

  lemma MarkedTwice(a: View, b: View, c: View)
    requires OnlyMarked(a, b) && OnlyMarked(b, c)
    ensures OnlyMarked(a, c)
  {
  }

  lemma ReadiedTwice(a: View, b: View, c: View)
    requires OnlyReadied(a, b) && OnlyReadied(b, c)
    ensures OnlyReadied(a, c)
  {
  }

  lemma MarkedAndTold(a: View, id: MessageID, b: View, c: View, d: View)
    requires id in a && b == a[id := a[id].(scheduled := true)] && OnlyReadied(b, c) && OnlyReadied(c, d)
    ensures OnlyMarked(a, d)
    ensures OnlyScheduled(a, d, id, true)
  {
  }

  /** The records once the message is scheduled, if it is. */
  ghost function WithScheduled(view: View, id: MessageID, really: bool): View {
    if really && id in view then view[id := view[id].(scheduled := true)] else view
  }

  /** Who is eligible after marking can be told before. */
  lemma EligibleIsForeseen(db: Dag.Ledger, view: View, view': View, confEligible: bool, id: MessageID, really: bool)
    requires OnlyMarked(view, view') && OnlyScheduled(view, view', id, really)
    ensures EligibleSet(db, view', confEligible) == EligibleSet(db, WithScheduled(view, id, really), confEligible)
  {
    var foreseen := WithScheduled(view, id, really);
    assert foreseen.Keys == view.Keys;
    forall x | x in db
      ensures Storage.ParentsEligible(db, view', confEligible, x)
         <==> Storage.ParentsEligible(db, foreseen, confEligible, x)
    {
      forall p | p in db[x].Parents() && p in view
        ensures view'[p].Eligible(confEligible) <==> foreseen[p].Eligible(confEligible)
      {
      }
    }
  }

  /** Readiness depends on eligible parents, not on the mark. */
  lemma ReadiedIsNoMatter(
    db: Dag.Ledger, view: View, view': View, confEligible: bool, b: Contents, news: set<MessageID>)
    requires OnlyReadied(view, view') && Sorted(db, view, confEligible, b, news)
    ensures Sorted(db, view', confEligible, b, news)
    ensures EligibleSet(db, view', confEligible) == EligibleSet(db, view, confEligible)
  {
    forall id | id in db
      ensures Storage.ParentsEligible(db, view, confEligible, id)
         <==> Storage.ParentsEligible(db, view', confEligible, id)
    {
    }
  }

  /** The storage grew or recorded more, but nothing was scheduled or became eligible by that, or ceased to be. */
  ghost predicate NothingNewEligible(view: View, view': View, confEligible: bool) {
    && Schedule.ScheduleKept(view, view')
    && (forall id :: id in view ==> id in view' && view'[id].Eligible(confEligible) == view[id].Eligible(confEligible))
    && (forall id :: id in view' && id !in view ==> !view'[id].Eligible(confEligible))
  }

  lemma EligibilityIsAllThatMatters(
    db: Dag.Ledger, db': Dag.Ledger, view: View, view': View, confEligible: bool, b: Contents, news: set<MessageID>)
    requires Dag.WellFormed(db') && Dag.Extends(db, db') && NothingNewEligible(view, view', confEligible)
    requires Sorted(db, view, confEligible, b, news)
    ensures Sorted(db', view', confEligible, b, news)
  {
    forall id | id in db
      ensures Storage.ParentsEligible(db, view, confEligible, id)
         <==> Storage.ParentsEligible(db', view', confEligible, id)
    {
    }
    forall id
      ensures Queued(db', b, id) <==> Queued(db, b, id)
    {
    }
  }

  /** Nothing became eligible but perhaps `p`, and what was eligible still is. */
  ghost predicate OnlyOneEligible(view: View, view': View, confEligible: bool, p: MessageID) {
    && view.Keys == view'.Keys
    && (forall id :: id in view ==> view[id].Eligible(confEligible) ==> view'[id].Eligible(confEligible))
    && (forall id :: id in view && id != p ==> view'[id].Eligible(confEligible) ==> view[id].Eligible(confEligible))
    && forall id :: id in view ==> view'[id].solid == view[id].solid
  }

  lemma ConfirmedOrScheduled(view: View, p: MessageID, confEligible: bool)
    requires p in view
    ensures OnlyOneEligible(view, view[p := view[p].(confirmed := true)], confEligible, p)
    ensures OnlyOneEligible(view, view[p := view[p].(scheduled := true)], confEligible, p)
  {
  }

  /** Nothing becomes eligible but `p`: nothing but children of `p` can become ready. */
  lemma OneMoreEligible(
    db: Dag.Ledger, view: View, view': View, confEligible: bool, b: Contents, news: set<MessageID>, p: MessageID)
    requires Sorted(db, view, confEligible, b, news) && OnlyOneEligible(view, view', confEligible, p)
    ensures Sorted(db, view', confEligible, b, news + {p})
  {
    forall id | id in b.nonReady && id in db && Storage.ParentsEligible(db, view', confEligible, id)
      ensures exists q :: q in news + {p} && q in db[id].Parents()
    {
      if p in db[id].Parents() {
        assert p in news + {p};
      } else {
        assert Storage.ParentsEligible(db, view, confEligible, id);
        var q :| q in news && q in db[id].Parents();
        assert q in news + {p};
      }
    }
  }

  /** Once no child of the newly eligible message is both eligible and waiting, none at all is. */
  lemma ChildrenWereAll(
    db: Dag.Ledger, view: View, confEligible: bool, b: Contents, p: MessageID, children: set<MessageID>)
    requires Sorted(db, view, confEligible, b, {p})
    requires forall id :: id in db && p in db[id].Parents() ==> id in children
    requires forall id :: id in b.nonReady ==> id !in children * EligibleSet(db, view, confEligible)
    ensures Sorted(db, view, confEligible, b, {})
    ensures forall id :: id in b.nonReady ==> id !in EligibleSet(db, view, confEligible)
  {
  }

  lemma MoreNews(db: Dag.Ledger, view: View, confEligible: bool, b: Contents, p: MessageID)
    requires Sorted(db, view, confEligible, b, {})
    ensures Sorted(db, view, confEligible, b, {p})
  {
  }

  /** What is taken out of a map and what stays add up. */
  lemma TakenAndLeft(before: map<MessageID, Message>, after: map<MessageID, Message>, taken: set<MessageID>)
    requires after == before - taken
    ensures |before| == |after| + |before.Keys * taken|
  {
    assert after.Keys == before.Keys - taken;
    assert before.Keys == (before.Keys - taken) + before.Keys * taken;
  }

  // ----- how many messages reside where -----

  /** The messages that ceased to wait, or never had to, and those of them that left the queues. */
  datatype Flow = Flow(left: set<MessageID>, popped: set<MessageID>)

  /** Nobody begins to wait again or returns, and nobody is dropped before more messages are queued than fit. */
  predicate Flows(max: nat, a: Flow, b: Flow) {
    a.left <= b.left && a.popped <= b.popped && (b.popped == a.popped || |b.left| > |a.popped| + max)
  }

  lemma FlowsOn(max: nat, a: Flow, b: Flow, c: Flow)
    requires Flows(max, a, b) && Flows(max, b, c)
    ensures Flows(max, a, c)
  {
    Fewer(b.left, c.left);
    Fewer(a.popped, b.popped);
  }

  /** Without a message being dropped. */
  lemma FlowsWithin(max: nat, a: Flow, b: Flow)
    requires a.left <= b.left && a.popped == b.popped
    ensures Flows(max, a, b)
  {
  }

  lemma {:induction false} Fewer(a: set<MessageID>, b: set<MessageID>)
    requires a <= b
    ensures |a| <= |b|
  {
    assert b == a + (b - a);
  }

  ghost function QueuedIDs(queues: seq<seq<Message>>): set<MessageID> {
    set i, j | 0 <= i < |queues| && 0 <= j < |queues[i]| :: queues[i][j].id
  }

  ghost function IDsOf(q: seq<Message>): set<MessageID> {
    set j | 0 <= j < |q| :: q[j].id
  }

  /** A queue holds as many messages as identities. */
  lemma {:induction false} DistinctIDs(db: Dag.Ledger, q: seq<Message>)
    requires forall m :: m in q ==> m.id in db && db[m.id] == m && multiset(q)[m] == 1
    ensures |IDsOf(q)| == |q|
  {
    if q != [] {
      var front, last := q[..|q| - 1], q[|q| - 1];
      assert q == front + [last];
      forall m | m in front
        ensures m.id in db && db[m.id] == m && multiset(front)[m] == 1 && m != last
      {
        assert m in q && m in multiset(front);
        assert multiset(q)[m] == multiset(front)[m] + if m == last then 1 else 0;
      }
      DistinctIDs(db, front);
      assert last.id !in IDsOf(front);
      assert IDsOf(q) == IDsOf(front) + {last.id};
    }
  }

  /** The queues together hold as many messages as identities. */
  lemma {:induction false} LengthIsNumber(db: Dag.Ledger, queues: seq<seq<Message>>)
    requires QueuesHold(db, queues)
    ensures |QueuedIDs(queues)| == TotalLength(queues)
  {
    hide QueuedIDs, IDsOf, QueuesHold;
    if queues == [] {
      NothingQueued();
    } else {
      var front, last := queues[..|queues| - 1], queues[|queues| - 1];
      FrontHolds(db, queues);
      LengthIsNumber(db, front);
      DistinctIDs(db, last);
      forall id
        ensures id in QueuedIDs(queues) <==> id in QueuedIDs(front) || id in IDsOf(last)
      {
        LastQueue(queues, id);
      }
      assert QueuedIDs(queues) == QueuedIDs(front) + IDsOf(last);
    }
  }

  lemma NothingQueued()
    ensures QueuedIDs([]) == {}
  {
  }

  lemma FrontHolds(db: Dag.Ledger, queues: seq<seq<Message>>)
    requires QueuesHold(db, queues) && queues != []
    ensures var front, last := queues[..|queues| - 1], queues[|queues| - 1];
      && QueuesHold(db, front) && QueuedIDs(front) !! IDsOf(last)
      && forall m :: m in last ==> m.id in db && db[m.id] == m && multiset(last)[m] == 1
  {
    hide IsHeap;
    var front, last := queues[..|queues| - 1], queues[|queues| - 1];
    assert forall i :: 0 <= i < |front| ==> front[i] == queues[i];
    forall id | id in QueuedIDs(front)
      ensures id !in IDsOf(last)
    {
      var i, j :| 0 <= i < |front| && 0 <= j < |front[i]| && front[i][j].id == id;
      assert front[i][j] in queues[i] && front[i][j].issuer == i && db[id] == front[i][j];
      forall k | 0 <= k < |last|
        ensures last[k].id != id
      {
        assert last[k] in queues[|queues| - 1] && last[k].issuer == |queues| - 1 && db[last[k].id] == last[k];
      }
    }
  }

  lemma LastQueue(queues: seq<seq<Message>>, id: MessageID)
    requires queues != []
    ensures id in QueuedIDs(queues)
       <==> id in QueuedIDs(queues[..|queues| - 1]) || id in IDsOf(queues[|queues| - 1])
  {
    var front := queues[..|queues| - 1];
    if id in QueuedIDs(queues) {
      var i, j :| 0 <= i < |queues| && 0 <= j < |queues[i]| && queues[i][j].id == id;
      assert i < |front| ==> front[i] == queues[i];
    }
    if id in QueuedIDs(front) {
      var i, j :| 0 <= i < |front| && 0 <= j < |front[i]| && front[i][j].id == id;
      assert queues[i][j].id == id;
    }
  }

  /** Conservation: every enqueued message waits, is queued or left the queues. */
  lemma EveryoneIsSomewhere(db: Dag.Ledger, b: Contents)
    requires Dag.WellFormed(db) && Residence(db, b)
    ensures |b.enqueued| == |b.nonReady| + TotalLength(b.queues) + |b.popped|
    ensures |b.enqueued - b.nonReady.Keys| == TotalLength(b.queues) + |b.popped|
    ensures b.popped <= b.enqueued - b.nonReady.Keys && b.nonReady.Keys <= b.enqueued
  {
    hide QueuedIDs, QueuesHold, Dag.WellFormed;
    var waiting, queued, left := b.nonReady.Keys, QueuedIDs(b.queues), b.enqueued - b.nonReady.Keys;
    LengthIsNumber(db, b.queues);
    forall id
      ensures id in queued <==> Queued(db, b, id)
    {
      QueuedIffListed(db, b, id);
    }
    hide Queued;
    forall id
      ensures id in left <==> id in queued || id in b.popped
    {
      assert id in b.enqueued <==> id in b.nonReady || Queued(db, b, id) || id in b.popped;
    }
    assert left == queued + b.popped;
    forall id | id in queued
      ensures id !in b.popped
    {
      assert Queued(db, b, id);
    }
    assert queued !! b.popped;
    forall id
      ensures id in b.enqueued <==> id in waiting || id in left
    {
    }
    assert b.enqueued == waiting + left;
    assert |b.nonReady| == |waiting|;
  }

  lemma QueuedMessage(db: Dag.Ledger, b: Contents, m: Message)
    requires Dag.WellFormed(db) && Residence(db, b)
    ensures InQueue(b.queues, m)
       <==> m.id in db && db[m.id] == m && m.id in b.enqueued && m.id !in b.nonReady && m.id !in b.popped
  {
    assert Queued(db, b, m.id) <==> m.id in db && InQueue(b.queues, db[m.id]);
    assert InQueue(b.queues, m) ==> m.id in db && db[m.id] == m;
  }

  lemma QueuedIffListed(db: Dag.Ledger, b: Contents, id: MessageID)
    requires Dag.WellFormed(db) && QueuesHold(db, b.queues)
    ensures id in QueuedIDs(b.queues) <==> Queued(db, b, id)
  {
    if id in QueuedIDs(b.queues) {
      var i, j :| 0 <= i < |b.queues| && 0 <= j < |b.queues[i]| && b.queues[i][j].id == id;
      assert b.queues[i][j] in b.queues[i];
    }
    if Queued(db, b, id) {
      var m := db[id];
      var j :| 0 <= j < |b.queues[m.issuer]| && b.queues[m.issuer][j] == m;
    }
  }

  // ----- what waits for good -----

  /** The parents that keep a message waiting. */
  ghost function Blockers(db: Dag.Ledger, view: View, confEligible: bool, id: MessageID): set<MessageID>
    requires id in db
  {
    set p | p in db[id].Parents() && p != GENESIS && !(p in view && view[p].Eligible(confEligible))
  }

  lemma BlockedIff(db: Dag.Ledger, view: View, confEligible: bool, solids: set<MessageID>, id: MessageID)
    requires Dag.Closed(db, solids) && id in solids && id in db
    ensures Blockers(db, view, confEligible, id) != {} <==> !Storage.ParentsEligible(db, view, confEligible, id)
    ensures forall p :: p in Blockers(db, view, confEligible, id) ==>
      p in solids && !(p in view && view[p].Eligible(confEligible))
  {
    forall p | p in db[id].Parents() && p != GENESIS && !(p in view && view[p].Eligible(confEligible))
      ensures p in Blockers(db, view, confEligible, id)
    {
    }
  }

  /** A chain of parents that are not eligible leads to one of the bad messages. */
  ghost predicate Stuck(db: Dag.Ledger, view: View, confEligible: bool, bad: set<MessageID>, id: MessageID)
    requires id in db
    decreases id
  {
    exists p :: p in Blockers(db, view, confEligible, id)
             && (p in bad || (p in db && 0 < p < id && Stuck(db, view, confEligible, bad, p)))
  }

  /** Everybody who waits is kept waiting by somebody who waits, or by a bad message. */
  ghost predicate Excused(
    db: Dag.Ledger, view: View, confEligible: bool, waiting: set<MessageID>, bad: set<MessageID>) {
    forall x :: x in waiting ==>
      x in db && Blockers(db, view, confEligible, x) != {} && Blockers(db, view, confEligible, x) <= waiting + bad
  }

  /** Waiting has no cycles, so it ends at a bad message. */
  lemma {:induction false} WaitingIsStuck(
    db: Dag.Ledger, view: View, confEligible: bool, waiting: set<MessageID>, bad: set<MessageID>, id: MessageID)
    requires Dag.WellFormed(db) && Excused(db, view, confEligible, waiting, bad) && id in waiting
    ensures id in db && Stuck(db, view, confEligible, bad, id)
    decreases id
  {
    var blockers := Blockers(db, view, confEligible, id);
    Inhabited(blockers);
    var p :| p in blockers;
    Dag.StoredIsWellFormed(db, id);
    if p !in bad {
      assert p in waiting && p in db;
      WaitingIsStuck(db, view, confEligible, waiting, bad, p);
    }
  }

  /** And who is stuck has parents that are not eligible. */
  lemma {:induction false} StuckIsIneligible(
    db: Dag.Ledger, view: View, confEligible: bool, bad: set<MessageID>, id: MessageID)
    requires id in db && Stuck(db, view, confEligible, bad, id)
    ensures !Storage.ParentsEligible(db, view, confEligible, id)
  {
    var p :| p in Blockers(db, view, confEligible, id);
  }

  // ----- moving messages -----

  lemma QueueGrows(db: Dag.Ledger, queues: seq<seq<Message>>, m: Message, q: seq<Message>)
    requires QueuesHold(db, queues) && 0 <= m.issuer < |queues| && m.id in db && db[m.id] == m
    requires !InQueue(queues, m)
    requires IsHeap(ByTime, q) && multiset(q) == multiset(queues[m.issuer]) + multiset{m}
    ensures QueuesHold(db, queues[m.issuer := q])
    ensures forall x :: InQueue(queues[m.issuer := q], x) <==> x == m || InQueue(queues, x)
  {
    var queues' := queues[m.issuer := q];
    assert forall x :: x in q <==> x in multiset(q);
    assert forall x :: x in queues[m.issuer] <==> x in multiset(queues[m.issuer]);
    forall i, x: Message | 0 <= i < |queues'| && x in queues'[i]
      ensures x.issuer == i && x.id in db && db[x.id] == x && multiset(queues'[i])[x] == 1
    {
    }
  }

  lemma QueueShrinks(db: Dag.Ledger, queues: seq<seq<Message>>, m: Message, q: seq<Message>)
    requires QueuesHold(db, queues) && InQueue(queues, m)
    requires IsHeap(ByTime, q) && multiset(queues[m.issuer]) == multiset(q) + multiset{m}
    ensures QueuesHold(db, queues[m.issuer := q])
    ensures forall x :: InQueue(queues[m.issuer := q], x) <==> x != m && InQueue(queues, x)
  {
    var queues' := queues[m.issuer := q];
    assert forall x :: x in q <==> x in multiset(q);
    assert multiset(queues[m.issuer])[m] == 1;
    assert forall x :: x in queues[m.issuer] <==> x in multiset(queues[m.issuer]);
    forall i, x: Message | 0 <= i < |queues'| && x in queues'[i]
      ensures x in queues[i] && x.issuer == i && x.id in db && db[x.id] == x
    {
    }
    forall i, x: Message | 0 <= i < |queues'| && x in queues'[i]
      ensures multiset(queues'[i])[x] == 1
    {
      assert x in queues[i];
      assert multiset(queues[i])[x] == 1;
      assert i == m.issuer ==> multiset(q)[x] <= multiset(queues[i])[x];
    }
  }

  /** A message leaves the buffers. */
  lemma Popping(
    db: Dag.Ledger, view: View, confEligible: bool, b: Contents, news: set<MessageID>, m: Message, q: seq<Message>)
    requires Dag.WellFormed(db)
    requires Sorted(db, view, confEligible, b, news) && InQueue(b.queues, m)
    requires IsHeap(ByTime, q) && multiset(b.queues[m.issuer]) == multiset(q) + multiset{m}
    ensures m.id in db && db[m.id] == m && Queued(db, b, m.id)
    ensures m.id in b.enqueued && m.id !in b.popped && Storage.ParentsEligible(db, view, confEligible, m.id)
    ensures Sorted(db, view, confEligible,
                   b.(queues := b.queues[m.issuer := q], popped := b.popped + {m.id}), news)
  {
    QueueShrinks(db, b.queues, m, q);
    var b' := b.(queues := b.queues[m.issuer := q], popped := b.popped + {m.id});
    forall id
      ensures Queued(db, b', id) <==> id != m.id && Queued(db, b, id)
    {
    }
  }

  /** A message that waited becomes ready. */
  lemma Readying(
    db: Dag.Ledger, view: View, confEligible: bool, b: Contents, news: set<MessageID>, m: Message, q: seq<Message>)
    requires Dag.WellFormed(db)
    requires Sorted(db, view, confEligible, b, news) && m.id in b.nonReady && b.nonReady[m.id] == m
    requires 0 <= m.issuer < |b.queues| && Storage.ParentsEligible(db, view, confEligible, m.id)
    requires IsHeap(ByTime, q) && multiset(q) == multiset(b.queues[m.issuer]) + multiset{m}
    ensures Sorted(db, view, confEligible,
                   b.(nonReady := b.nonReady - {m.id}, queues := b.queues[m.issuer := q]), news)
  {
    QueueGrows(db, b.queues, m, q);
    var b' := b.(nonReady := b.nonReady - {m.id}, queues := b.queues[m.issuer := q]);
    forall id
      ensures Queued(db, b', id) <==> id == m.id || Queued(db, b, id)
    {
    }
  }

  /** A new message enters the queue of its issuer ... */
  lemma EnteringReady(
    db: Dag.Ledger, view: View, confEligible: bool, b: Contents, m: Message, q: seq<Message>)
    requires Dag.WellFormed(db)
    requires Sorted(db, view, confEligible, b, {}) && m.id in db && db[m.id] == m && m.id !in b.enqueued
    requires 0 <= m.issuer < |b.queues| && Storage.ParentsEligible(db, view, confEligible, m.id)
    requires IsHeap(ByTime, q) && multiset(q) == multiset(b.queues[m.issuer]) + multiset{m}
    ensures Sorted(db, view, confEligible,
                   b.(enqueued := b.enqueued + {m.id}, queues := b.queues[m.issuer := q]), {})
  {
    assert !Queued(db, b, m.id);
    QueueGrows(db, b.queues, m, q);
    var b' := b.(enqueued := b.enqueued + {m.id}, queues := b.queues[m.issuer := q]);
    forall id
      ensures Queued(db, b', id) <==> id == m.id || Queued(db, b, id)
    {
    }
  }

  /** ... or the map of those that are not ready. */
  lemma EnteringNonReady(db: Dag.Ledger, view: View, confEligible: bool, b: Contents, m: Message)
    requires Sorted(db, view, confEligible, b, {}) && m.id in db && db[m.id] == m && m.id !in b.enqueued
    requires !Storage.ParentsEligible(db, view, confEligible, m.id)
    ensures Sorted(db, view, confEligible,
                   b.(enqueued := b.enqueued + {m.id}, nonReady := b.nonReady[m.id := m]), {})
  {
    var b' := b.(enqueued := b.enqueued + {m.id}, nonReady := b.nonReady[m.id := m]);
    forall id
      ensures Queued(db, b', id) <==> Queued(db, b, id)
    {
    }
  }

  // ----- trimming the queues -----

  /** Of every queue messages were dropped that come no later than those that stayed. */
  ghost predicate HeadsDropped(queues: seq<seq<Message>>, queues': seq<seq<Message>>) {
    && |queues'| == |queues|
    && forall i, x, y :: 0 <= i < |queues| && x in queues[i] && y in queues'[i] ==>
         && y in queues[i]
         && (x in queues'[i] || x.issuanceTime % 1_000_000_000 <= y.issuanceTime % 1_000_000_000)
  }

  lemma NoneDropped(queues: seq<seq<Message>>)
    ensures HeadsDropped(queues, queues)
  {
  }

  lemma OneMoreDropped(queues: seq<seq<Message>>, queues': seq<seq<Message>>, i: nat, m: Message, q: seq<Message>)
    requires HeadsDropped(queues, queues') && i < |queues'|
    requires m in queues'[i] && multiset(queues'[i]) == multiset(q) + multiset{m}
    requires forall x :: x in queues'[i] ==> m.issuanceTime % 1_000_000_000 <= x.issuanceTime % 1_000_000_000
    ensures HeadsDropped(queues, queues'[i := q])
  {
    forall x
      ensures x in queues'[i] <==> x in q || x == m
    {
      assert x in queues'[i] <==> x in multiset(queues'[i]);
      assert x in q <==> x in multiset(q);
    }
    forall x, y | x in queues[i] && y in q
      ensures y in queues[i]
      ensures x in q || x.issuanceTime % 1_000_000_000 <= y.issuanceTime % 1_000_000_000
    {
      assert y in queues'[i];
    }
  }

  // ----- the length of the queues -----

  function TotalLength(queues: seq<seq<Message>>): nat {
    if queues == [] then 0 else TotalLength(queues[..|queues| - 1]) + |queues[|queues| - 1]|
  }

  lemma {:induction false} TotalAfterChange(queues: seq<seq<Message>>, i: nat, q: seq<Message>)
    requires i < |queues|
    ensures TotalLength(queues[i := q]) == TotalLength(queues) - |queues[i]| + |q|
  {
    var front := queues[..|queues| - 1];
    if i == |queues| - 1 {
      assert queues[i := q][..i] == front;
    } else {
      assert queues[i := q][..|queues| - 1] == front[i := q];
      TotalAfterChange(front, i, q);
    }
  }

  lemma {:induction false} NonEmptyQueue(queues: seq<seq<Message>>) returns (i: nat)
    requires TotalLength(queues) > 0
    ensures i < |queues| && queues[i] != []
  {
    if queues[|queues| - 1] != [] {
      i := |queues| - 1;
    } else {
      i := NonEmptyQueue(queues[..|queues| - 1]);
    }
  }

  lemma {:induction false} EmptyQueues(queues: seq<seq<Message>>)
    ensures TotalLength(queues) == 0 <==> forall i :: 0 <= i < |queues| ==> queues[i] == []
  {
    if queues != [] {
      var front, last := queues[..|queues| - 1], |queues| - 1;
      EmptyQueues(front);
      assert forall i :: 0 <= i < last ==> front[i] == queues[i];
    }
  }
}
