/** The ICCA+ scheduler of a node (multiverse/icca_scheduler.go). */
module IccaScheduler {
  import opened Messages
  import opened Parameters
  import opened Heaps
  import opened Buffers
  import Dag
  import ManaCost
  import RoundRobin
  import Schedule
  import Storage

  // ----- which queue is trimmed -----

  function Lengths(queues: seq<seq<Message>>): seq<nat> {
    seq(|queues|, i requires 0 <= i < |queues| => |queues[i]|)
  }

  /** No queue is longer, measured in quanta of its issuer, and no later one is as long. */
  ghost predicate IsLongest(quanta: seq<real>, lengths: seq<nat>, i: int)
    requires |lengths| == |quanta| && forall k :: 0 <= k < |quanta| ==> 0.0 < quanta[k]
  {
    && 0 <= i < |quanta|
    && (forall k :: 0 <= k < |quanta| ==> lengths[k] as real / quanta[k] <= lengths[i] as real / quanta[i])
    && forall k :: i < k < |quanta| ==> lengths[k] as real / quanta[k] < lengths[i] as real / quanta[i]
  }

  function LengthsAfter(lengths: seq<nat>, drops: seq<int>): seq<nat> {
    if drops == [] then lengths
    else
      var before, i := LengthsAfter(lengths, drops[..|drops| - 1]), drops[|drops| - 1];
      if 0 <= i < |before| && before[i] > 0 then before[i := before[i] - 1] else before
  }

  lemma {:induction false} SameNumberOfQueues(lengths: seq<nat>, drops: seq<int>)
    ensures |LengthsAfter(lengths, drops)| == |lengths|
  {
    if drops != [] {
      SameNumberOfQueues(lengths, drops[..|drops| - 1]);
    }
  }

  /** Each message was dropped from a nonempty queue that was longest at that moment. */
  ghost predicate DroppedFromLongest(quanta: seq<real>, lengths: seq<nat>, drops: seq<int>)
    requires |lengths| == |quanta| && forall k :: 0 <= k < |quanta| ==> 0.0 < quanta[k]
  {
    drops == [] || (
      var before := drops[..|drops| - 1];
      SameNumberOfQueues(lengths, before);
      && DroppedFromLongest(quanta, lengths, before)
      && IsLongest(quanta, LengthsAfter(lengths, before), drops[|drops| - 1])
      && LengthsAfter(lengths, before)[drops[|drops| - 1]] > 0)
  }

  lemma LongestIsNotEmpty(quanta: seq<real>, lengths: seq<nat>, i: int, k: int)
    requires |lengths| == |quanta| && forall j :: 0 <= j < |quanta| ==> 0.0 < quanta[j]
    requires IsLongest(quanta, lengths, i) && 0 <= k < |quanta| && lengths[k] > 0
    ensures lengths[i] > 0
  {
    assert lengths[k] as real / quanta[k] > 0.0;
    assert lengths[k] as real / quanta[k] <= lengths[i] as real / quanta[i];
  }

  lemma {:induction false} RecordDrop(quanta: seq<real>, lengths: seq<nat>, drops: seq<int>, i: int)
    requires |lengths| == |quanta| && forall j :: 0 <= j < |quanta| ==> 0.0 < quanta[j]
    requires |LengthsAfter(lengths, drops)| == |quanta|
    requires DroppedFromLongest(quanta, lengths, drops) && 0 <= i < |quanta|
    requires IsLongest(quanta, LengthsAfter(lengths, drops), i) && LengthsAfter(lengths, drops)[i] > 0
    ensures DroppedFromLongest(quanta, lengths, drops + [i])
    ensures LengthsAfter(lengths, drops + [i]) == LengthsAfter(lengths, drops)[i := LengthsAfter(lengths, drops)[i] - 1]
  {
    assert (drops + [i])[..|drops|] == drops;
  }

  class ICCAScheduler {
    const config: Config
    const quanta: seq<real>
    const peer: PeerID
    const spamming: bool // the own burn policy is zero
    const storage: Storage.Storage
    var nonReadyMap: map<MessageID, Message>
    var issuerQueues: seq<seq<Message>>
    var readyLen: int
    var deficits: seq<real>
    var accessMana: seq<real>
    var roundRobin: int // the issuer that the ring points to
    ghost var enqueued: set<MessageID>
    ghost var popped: set<MessageID>         // the messages that left the queues, served or dropped
    ghost var served: set<MessageID>         // those of them that a tick scheduled
    ghost var scheduledLog: seq<MessageID>   // the scheduling events
    ghost var confirmedThen: seq<set<MessageID>> // and for each of them, what was confirmed by then
    ghost var run: RoundRobin.Run            // the ticks that found a message to schedule

    ghost function Contents(): Contents
      reads this`nonReadyMap, this`issuerQueues, this`enqueued, this`popped
    {
      Buffers.Contents(nonReadyMap, issuerQueues, enqueued, popped)
    }

    function Rates(): RoundRobin.Rates {
      RoundRobin.Rates(quanta, config.maxDeficit)
    }

    ghost function Ring(): RoundRobin.State
      reads this`deficits, this`roundRobin
    {
      RoundRobin.State(deficits, roundRobin)
    }

    ghost predicate Sensible() {
      && config.Sensible() && |quanta| == config.nodesCount && Rates().Sensible()
    }

    ghost predicate StorageValid()
      reads storage, storage.footprint
    {
      && storage.Valid() && storage.config == config
      && storage.view.Keys == storage.messageDB.Keys && Dag.WellFormed(storage.messageDB)
      && (forall id :: id in storage.messageDB ==> 0 <= storage.messageDB[id].issuer < |quanta|)
      && SolidHasParents(storage.messageDB, storage.view)
    }

    /** The metadata objects of the storage are none of the parts. */
    ghost predicate Apart()
      reads storage`footprint
    {
      storage !in storage.footprint && this !in storage.footprint
    }

    /** The buffers are in order, up to messages that wait for a parent in `news`. */
    ghost predicate Placed(news: set<MessageID>)
      reads this`nonReadyMap, this`issuerQueues, this`readyLen, this`deficits, this`roundRobin
      reads this`enqueued, this`popped, storage, storage.footprint
    {
      && Sensible() && Apart() && StorageValid()
      && RoundRobin.Valid(Rates(), Ring())
      && |issuerQueues| == |quanta| && readyLen == TotalLength(issuerQueues)
      && (forall id :: id in nonReadyMap ==> id in storage.view && storage.view[id].solid)
      && Sorted(storage.messageDB, storage.view, config.confEligible, Contents(), news)
    }

    /** What was scheduled is recorded, and waited for its parents unless it need not wait. */
    ghost predicate History()
      reads storage`messageDB, storage`view, this`scheduledLog, this`confirmedThen
    {
      Schedule.Justified(storage.messageDB, storage.view, config.confEligible, peer, spamming, scheduledLog,
                         confirmedThen)
    }

    ghost predicate Valid(news: set<MessageID>)
      reads this`nonReadyMap, this`issuerQueues, this`readyLen, this`deficits, this`roundRobin
      reads this`enqueued, this`popped, this`scheduledLog, this`confirmedThen, storage, storage.footprint
    {
      Apart() && Placed(news) && History()
    }

    /** How often each message was scheduled. */
    ghost predicate Counted()
      reads storage`messageDB, this`scheduledLog, this`enqueued, this`popped, this`served
    {
      Schedule.Counted(storage.messageDB, peer, spamming, scheduledLog, enqueued, popped, served)
    }

    /** Nobody is in debt. */
    ghost predicate Funded()
      reads this`accessMana
    {
      |accessMana| == |quanta| && forall i :: 0 <= i < |quanta| ==> 0.0 <= accessMana[i]
    }

    /** The messages that ceased to wait, or never had to. */
    ghost function Left(): set<MessageID>
      reads this`enqueued, this`nonReadyMap
    {
      enqueued - nonReadyMap.Keys
    }

    ghost function Flow(): Flow
      reads this`enqueued, this`nonReadyMap, this`popped
    {
      Buffers.Flow(Left(), popped)
    }

    /** The number of messages that wait or are queued. */
    ghost function Held(): int
      reads this`readyLen, this`nonReadyMap
    {
      readyLen + |nonReadyMap|
    }

    /** The ticks are a run of the deficit round robin that led to the present deficits. */
    ghost predicate Logged()
      reads this`run, this`deficits, this`roundRobin
    {
      Sensible() && run.Proper(Rates()) && run.s == Ring()
    }

    ghost function Eligible(): set<MessageID>
      reads storage
    {
      EligibleSet(storage.messageDB, storage.view, config.confEligible)
    }

    constructor (config: Config, quanta: seq<real>, peer: PeerID, spamming: bool, storage: Storage.Storage)
      requires config.Sensible() && |quanta| == config.nodesCount && 1.0 <= config.maxDeficit
      requires forall i :: 0 <= i < |quanta| ==> 0.0 < quanta[i]
      requires storage.config == config && storage.Valid() && storage.messageDB == map[]
      ensures Valid({}) && Logged() && Counted() && Funded()
      ensures Flow() == Buffers.Flow({}, {}) && served == {} && scheduledLog == []
      ensures enqueued == {} && popped == {} && accessMana == seq(|quanta|, i => 0.0) && run.Length() == 0
      ensures this.config == config && this.quanta == quanta && this.storage == storage
      ensures this.peer == peer && this.spamming == spamming
    {
      hide Storage.ParentsEligible, Storage.ChildrenIndexed, Storage.SlotsIndexed, Storage.SlotMap, ManaCost.Run,
        TotalLength;
      this.config, this.quanta, this.peer, this.spamming, this.storage := config, quanta, peer, spamming, storage;
      nonReadyMap := map[];
      issuerQueues := seq(|quanta|, i => []);
      deficits := seq(|quanta|, i => 0.0);
      accessMana := seq(|quanta|, i => 0.0);
      readyLen, roundRobin := 0, 0;
      enqueued, popped, served, scheduledLog, confirmedThen := {}, {}, {}, [], [];
      run := RoundRobin.Start(RoundRobin.State(seq(|quanta|, i => 0.0), 0));
      new;
      EmptyQueues(issuerQueues);
    }

    /** Fairness: over any last ticks, backlogged issuers are served in proportion to their quanta, up to a constant. */
    lemma {:induction false} ServedFairly(i: PeerID, j: PeerID, ticks: nat)
      requires Logged() && ticks <= run.Length()
      requires RoundRobin.Last(run, ticks).AlwaysBacklogged(i) && RoundRobin.Last(run, ticks).AlwaysBacklogged(j)
      requires 0 <= i < |quanta| && 1.0 + quanta[i] <= config.maxDeficit
      requires 0 <= j < |quanta| && 1.0 + quanta[j] <= config.maxDeficit
      ensures var last := RoundRobin.Last(run, ticks);
        var bound := 1.0 + config.maxDeficit / quanta[i] + config.maxDeficit / quanta[j];
        -bound <= last.Served(i) as real / quanta[i] - last.Served(j) as real / quanta[j] <= bound
    {
      RoundRobin.LastIsProper(Rates(), run, ticks);
      RoundRobin.Fairness(Rates(), RoundRobin.Last(run, ticks), i, j);
      RoundRobin.Fairness(Rates(), RoundRobin.Last(run, ticks), j, i);
    }

    /** Nobody who stays backlogged waits longer than a bound computed from the quanta and the cap ... */
    lemma {:induction false} ServedInTime(i: PeerID, ticks: nat)
      requires Logged() && ticks <= run.Length() && RoundRobin.Last(run, ticks).AlwaysBacklogged(i)
      requires 0 <= i < |quanta| && ticks as real > RoundRobin.LongestWait(Rates(), i)
      ensures RoundRobin.Last(run, ticks).Served(i) > 0
    {
      RoundRobin.LastIsProper(Rates(), run, ticks);
      RoundRobin.BoundedWait(Rates(), RoundRobin.Last(run, ticks), i);
    }

    /** ... which is shorter where the cap leaves room for a quantum above the price of a message ... */
    lemma {:induction false} ServedInTimeWithRoom(i: PeerID, ticks: nat)
      requires Logged() && ticks <= run.Length() && RoundRobin.Last(run, ticks).AlwaysBacklogged(i)
      requires 0 <= i < |quanta| && 1.0 + quanta[i] <= config.maxDeficit
      requires ticks as real > RoundRobin.WaitBound(Rates(), i)
      ensures RoundRobin.Last(run, ticks).Served(i) > 0
    {
      RoundRobin.LastIsProper(Rates(), run, ticks);
      RoundRobin.BoundedWaitWithRoom(Rates(), RoundRobin.Last(run, ticks), i);
    }

    /** ... and with a deficit of one, only until the others have used up their deficits once. */
    lemma {:induction false} ServedSoon(i: PeerID, ticks: nat)
      requires Logged() && ticks <= run.Length() && RoundRobin.Last(run, ticks).AlwaysBacklogged(i)
      requires 0 <= i < |quanta| && |RoundRobin.Last(run, ticks).First().deficits| == |quanta|
      requires 1.0 <= RoundRobin.Last(run, ticks).First().deficits[i]
      requires ticks >= (|quanta| - 1) * config.maxDeficit.Floor + 1
      ensures RoundRobin.Last(run, ticks).Served(i) > 0
    {
      RoundRobin.LastIsProper(Rates(), run, ticks);
      RoundRobin.ShortWait(Rates(), RoundRobin.Last(run, ticks), i);
    }

    // ----- changes of the storage -----

    /** What others record leaves the scheduler in order, as long as nothing becomes eligible by it. */
    twostate lemma StorageChanged(news: set<MessageID>)
      requires old(Valid(news)) && unchanged(this)
      requires storage.Valid() && storage !in storage.footprint && this !in storage.footprint
      requires Dag.Extends(old(storage.messageDB), storage.messageDB)
      requires NothingNewEligible(old(storage.view), storage.view, config.confEligible)
      requires forall id :: id in old(storage.view) && old(storage.view)[id].solid ==> storage.view[id].solid
      requires SolidHasParents(storage.messageDB, storage.view)
      ensures Valid(news)
    {
      hide Sorted, RoundRobin.Valid, SolidHasParents, TotalLength, Schedule.Justified;
      Schedule.JustifiedKept(old(storage.messageDB), storage.messageDB, old(storage.view), storage.view,
                             config.confEligible, peer, spamming, scheduledLog, confirmedThen);
      EligibilityIsAllThatMatters(old(storage.messageDB), storage.messageDB, old(storage.view), storage.view,
                                  config.confEligible, Contents(), news);
    }

    /** A message that became eligible may be what others waited for. */
    twostate lemma BecameEligible(id: MessageID)
      requires old(Placed({})) && unchanged(this)
      requires storage.Valid() && storage !in storage.footprint && this !in storage.footprint
      requires storage.messageDB == old(storage.messageDB) && id in storage.messageDB
      requires OnlyOneEligible(old(storage.view), storage.view, config.confEligible, id)
      ensures Placed({id})
    {
      hide Sorted, RoundRobin.Valid, TotalLength, SolidHasParents, Storage.Storage.Valid, Dag.WellFormed;
      SolidityKept(storage.messageDB, old(storage.view), storage.view);
      OneMoreEligible(storage.messageDB, old(storage.view), storage.view, config.confEligible, Contents(), {}, id);
      assert {} + {id} == {id};
    }

    /** A confirmed message is eligible if the configuration says so. */
    twostate lemma Confirmed(id: MessageID)
      requires old(Valid({})) && unchanged(this)
      requires storage.Valid() && storage !in storage.footprint && this !in storage.footprint
      requires storage.messageDB == old(storage.messageDB) && id in storage.messageDB
      requires storage.view == old(storage.view)[id := old(storage.view)[id].(confirmed := true)]
      ensures Valid(if config.confEligible then {id} else {})
    {
      hide Sorted, RoundRobin.Valid, TotalLength, SolidHasParents, Storage.Storage.Valid, Dag.WellFormed;
      if config.confEligible {
        ConfirmedOrScheduled(old(storage.view), id, config.confEligible);
        BecameEligible(id);
        Schedule.JustifiedKept(storage.messageDB, storage.messageDB, old(storage.view), storage.view,
                               config.confEligible, peer, spamming, scheduledLog, confirmedThen);
      } else {
        SolidityKept(storage.messageDB, old(storage.view), storage.view);
        StorageChanged({});
      }
    }

    /** Handles the confirmation of a message. */
    method MessageConfirmed(id: MessageID)
      requires Valid(if config.confEligible then {id} else {}) && id in storage.messageDB
      modifies this`nonReadyMap, this`issuerQueues, this`readyLen
      modifies storage`view, storage.footprint, storage`acceptedSlotDB, storage`ATT
      ensures Valid({}) && OnlyReadied(old(storage.view), storage.view)
      ensures nonReadyMap == if config.confEligible then old(nonReadyMap) - Eligible() else old(nonReadyMap)
      ensures Eligible() == old(Eligible())
      // the buffer overflows iff the confirmation wakes up more messages than there is room for
      ensures var woken := if config.confEligible then |old(nonReadyMap.Keys * Eligible())| else 0;
        && readyLen == old(readyLen) + woken
        && (readyLen > config.maxBuffer <==> woken > config.maxBuffer - old(readyLen))
      ensures var m := storage.messageDB[id];
        var slot := Storage.SlotIndex(config, storage.genesisTime, m.issuanceTime);
        && storage.ATT == (if m.issuanceTime > old(storage.ATT) then m.issuanceTime else old(storage.ATT))
        && storage.acceptedSlotDB == old(storage.acceptedSlotDB)[
             slot := Storage.InSlot(old(storage.acceptedSlotDB), slot) + {id}]
    {
      hide ICCAScheduler.Placed, ICCAScheduler.History, EligibleSet, OnlyReadied, Storage.Storage.Valid, Dag.WellFormed,
        Storage.ChildrenIndexed, NothingNewEligible, SolidHasParents;
      StorageInOrder(if config.confEligible then {id} else {});
      Dag.StoredIsWellFormed(storage.messageDB, id);
      NothingReadied(storage.view);
      if config.confEligible {
        UpdateChildrenReady(id);
      }
      label told:
      StorageInOrder({});
      ParentsInOrder();
      storage.AddToAcceptedSlot(storage.messageDB[id]);
      NothingNew(storage.messageDB, storage.view, config.confEligible);
      StorageChanged@told({});
    }

    lemma ParentsInOrder()
      requires Valid({})
      ensures SolidHasParents(storage.messageDB, storage.view)
    {
    }

    // ----- moving messages between the buffers -----

    method Push(m: Message)
      requires 0 <= m.issuer < |issuerQueues| && IsHeap(ByTime, issuerQueues[m.issuer])
      requires readyLen == TotalLength(issuerQueues)
      modifies this`issuerQueues, this`readyLen
      ensures |issuerQueues| == |old(issuerQueues)|
      ensures var q := issuerQueues[m.issuer];
        && issuerQueues == old(issuerQueues)[m.issuer := q] && IsHeap(ByTime, q)
        && multiset(q) == multiset(old(issuerQueues)[m.issuer]) + multiset{m}
      ensures readyLen == TotalLength(issuerQueues) == old(readyLen) + 1
    {
      var q := Heaps.Push(ByTime, issuerQueues[m.issuer], m);
      TotalAfterChange(issuerQueues, m.issuer, q);
      issuerQueues := issuerQueues[m.issuer := q];
      readyLen := readyLen + 1;
    }

    /** Takes the first message of a queue. */
    method Pop(issuer: PeerID) returns (m: Message)
      requires Valid({}) && 0 <= issuer < |issuerQueues| && issuerQueues[issuer] != []
      modifies this`issuerQueues, this`readyLen, this`popped
      ensures Valid({}) && m.issuer == issuer && m in old(issuerQueues)[issuer] && m.id in storage.messageDB
      ensures forall x :: x in old(issuerQueues)[issuer] ==>
        m.issuanceTime % 1_000_000_000 <= x.issuanceTime % 1_000_000_000
      ensures popped == old(popped) + {m.id} && readyLen == old(readyLen) - 1
      ensures m.id in enqueued && m.id !in old(popped) && m.id in Eligible()
      ensures |issuerQueues| == |old(issuerQueues)|
      ensures issuerQueues == old(issuerQueues)[issuer := issuerQueues[issuer]]
      ensures multiset(old(issuerQueues)[issuer]) == multiset(issuerQueues[issuer]) + multiset{m}
      ensures |issuerQueues[issuer]| == |old(issuerQueues)[issuer]| - 1
    {
      hide Sorted, RoundRobin.Valid, Storage.Storage.Valid, Dag.WellFormed, Schedule.Justified, SolidHasParents,
        TotalLength, EligibleSet, Storage.ParentsEligible, Heaps.IsHeap;
      readyLen := readyLen - 1;
      SortedQueues(storage.messageDB, storage.view, config.confEligible, Contents(), {});
      var q;
      m, q := Heaps.Pop(ByTime, issuerQueues[issuer]);
      assert m in issuerQueues[issuer];
      Popping(storage.messageDB, storage.view, config.confEligible, Contents(), {}, m, q);
      EligibleHasParents(storage.messageDB, storage.view, config.confEligible, m.id);
      TotalAfterChange(issuerQueues, issuer, q);
      issuerQueues := issuerQueues[issuer := q];
      popped := popped + {m.id};
    }

    /** Marks a message ready, and moves it to its queue if it was waiting. */
    method SetReady(id: MessageID, ghost news: set<MessageID>)
      requires Valid(news) && id in Eligible()
      modifies this`nonReadyMap, this`issuerQueues, this`readyLen, storage`view, storage.footprint
      ensures Valid(news) && OnlyReadied(old(storage.view), storage.view) && Eligible() == old(Eligible())
      ensures nonReadyMap == old(nonReadyMap) - {id} && Held() == old(Held())
      ensures id in storage.view && storage.view[id].ready
    {
      hide ICCAScheduler.Placed, ICCAScheduler.History, EligibleSet, OnlyReadied;
      EligibleIsStored(id);
      Recorded(id, news);
      MarkReady(id, news);
      if id in nonReadyMap {
        MoveToQueue(id, news);
      } else {
        assert nonReadyMap - {id} == nonReadyMap;
      }
    }

    lemma EligibleIsStored(id: MessageID)
      requires id in Eligible()
      ensures id in storage.messageDB
    {
    }

    method MarkReady(id: MessageID, ghost news: set<MessageID>)
      requires Valid(news) && id in storage.messageDB
      modifies storage`view, storage.footprint
      ensures Valid(news) && OnlyReadied(old(storage.view), storage.view) && Eligible() == old(Eligible())
      ensures storage.view == old(storage.view)[id := old(storage.view)[id].(ready := true)]
    {
      label before:
      hide Sorted, RoundRobin.Valid, EligibleSet, Storage.Storage.Valid, TotalLength, Dag.WellFormed, SolidHasParents;
      storage.SetReady(id);
      OneReadied(storage.messageDB, old(storage.view), id, config.confEligible);
      hide OnlyReadied;
      StorageChanged@before(news);
    }

    method MoveToQueue(id: MessageID, ghost news: set<MessageID>)
      requires Valid(news) && id in nonReadyMap && id in Eligible()
      modifies this`nonReadyMap, this`issuerQueues, this`readyLen
      ensures Valid(news) && nonReadyMap == old(nonReadyMap) - {id} && Held() == old(Held())
    {
      hide Sorted, RoundRobin.Valid, Storage.Storage.Valid, EligibleSet, SolidHasParents, Dag.WellFormed, TotalLength,
        Schedule.Justified, Heaps.IsHeap, Storage.ParentsEligible, Storage.ChildrenIndexed, QueuesHold, Residence;
      ghost var before := Contents();
      var m := nonReadyMap[id];
      WaitingIsStored(storage.messageDB, storage.view, config.confEligible, before, news, id);
      EligibleHasParents(storage.messageDB, storage.view, config.confEligible, id);
      nonReadyMap := nonReadyMap - {id};
      TakenAndLeft(old(nonReadyMap), nonReadyMap, {id});
      assert old(nonReadyMap).Keys * {id} == {id};
      Push(m);
      Readying(storage.messageDB, storage.view, config.confEligible, before, news, m, issuerQueues[m.issuer]);
    }

    /** What is in order of the storage. */
    lemma StorageInOrder(news: set<MessageID>)
      requires Valid(news)
      ensures storage.Valid() && storage.view.Keys == storage.messageDB.Keys && Dag.WellFormed(storage.messageDB)
      ensures Storage.ChildrenIndexed(storage.messageDB, storage.strongChildrenDB, storage.weakChildrenDB)
      ensures Sensible() && storage.config == config
    {
      hide Sorted, RoundRobin.Valid, Schedule.Justified, TotalLength, SolidHasParents;
    }

    lemma IssuerInRange(id: MessageID)
      requires Valid({}) && id in storage.messageDB
      ensures 0 <= storage.messageDB[id].issuer < config.nodesCount
    {
      hide Sorted, RoundRobin.Valid, Schedule.Justified, TotalLength, SolidHasParents;
    }

    lemma AllChildrenReadied(id: MessageID, children: set<MessageID>)
      requires Valid({id})
      requires forall c :: c in storage.messageDB && id in storage.messageDB[c].Parents() ==> c in children
      requires forall c :: c in nonReadyMap ==> c !in children * Eligible()
      ensures Valid({}) && forall c :: c in nonReadyMap ==> c !in Eligible()
    {
      hide Sorted, RoundRobin.Valid, EligibleSet, Storage.Storage.Valid, SolidHasParents, TotalLength, Dag.WellFormed,
        Schedule.Justified;
      ChildrenWereAll(storage.messageDB, storage.view, config.confEligible, Contents(), id, children);
    }

    /** Every message that waited only for `id` becomes ready; afterwards none with eligible parents waits. */
    method UpdateChildrenReady(id: MessageID)
      requires Valid({id})
      modifies this`nonReadyMap, this`issuerQueues, this`readyLen, storage`view, storage.footprint
      ensures Valid({}) && OnlyReadied(old(storage.view), storage.view) && Eligible() == old(Eligible())
      ensures nonReadyMap == old(nonReadyMap) - Eligible()
      ensures readyLen == old(readyLen) + |old(nonReadyMap).Keys * Eligible()|
    {
      hide ICCAScheduler.Placed, ICCAScheduler.History, EligibleSet, OnlyReadied, Storage.ChildrenIndexed,
        Storage.ChildrenOf, Storage.Storage.Valid, Dag.WellFormed;
      ghost var waiting, view := nonReadyMap, storage.view;
      StorageInOrder({id});
      ghost var strong := Storage.ChildrenOf(storage.strongChildrenDB, id);
      ghost var weak := Storage.ChildrenOf(storage.weakChildrenDB, id);
      Storage.ChildrenAreStored(storage.messageDB, storage.strongChildrenDB, storage.weakChildrenDB, id);
      ReadyChildren(id, Storage.ChildrenOf(storage.strongChildrenDB, id));
      ghost var view1 := storage.view;
      ReadyChildren(id, Storage.ChildrenOf(storage.weakChildrenDB, id));
      ReadiedTwice(view, view1, storage.view);
      AllChildrenReadied(id, strong + weak);
      NoneLeft(waiting, nonReadyMap, strong, weak, Eligible());
      TakenAndLeft(waiting, nonReadyMap, Eligible());
    }

    method ReadyChildren(id: MessageID, children: set<MessageID>)
      requires Valid({id}) && children <= storage.messageDB.Keys
      modifies this`nonReadyMap, this`issuerQueues, this`readyLen, storage`view, storage.footprint
      ensures Valid({id}) && OnlyReadied(old(storage.view), storage.view) && Eligible() == old(Eligible())
      ensures nonReadyMap == old(nonReadyMap) - children * Eligible() && Held() == old(Held())
    {
      hide ICCAScheduler.Placed, ICCAScheduler.History, EligibleSet, OnlyReadied;
      NothingReadied(storage.view);
      var todo := children;
      AllDone(nonReadyMap, Eligible(), children);
      while todo != {}
        invariant todo <= children
        invariant Valid({id}) && OnlyReadied(old(storage.view), storage.view) && Eligible() == old(Eligible())
        invariant nonReadyMap == old(nonReadyMap) - (children - todo) * Eligible() && Held() == old(Held())
      {
        Inhabited(todo);
        var child :| child in todo;
        ghost var view := storage.view;
        ReadyIfPossible(child, {id});
        OneMoreDone(old(nonReadyMap), Eligible(), children, todo, child);
        ReadiedTwice(old(storage.view), view, storage.view);
        todo := todo - {child};
      }
    }

    method ReadyIfPossible(child: MessageID, ghost news: set<MessageID>)
      requires Valid(news) && child in storage.messageDB
      modifies this`nonReadyMap, this`issuerQueues, this`readyLen, storage`view, storage.footprint
      ensures Valid(news) && OnlyReadied(old(storage.view), storage.view) && Eligible() == old(Eligible())
      ensures nonReadyMap == old(nonReadyMap) - {child} * Eligible() && Held() == old(Held())
    {
      hide ICCAScheduler.Placed, ICCAScheduler.History, EligibleSet, OnlyReadied, Storage.Storage.Valid;
      ReadyIff(child, news);
      NothingReadied(storage.view);
      if storage.IsReady(child) {
        SetReady(child, news);
        assert {child} * Eligible() == {child};
      } else {
        assert nonReadyMap == nonReadyMap - {child} * Eligible();
      }
    }

    /** For messages that wait, being ready is having eligible parents. */
    lemma ReadyIff(id: MessageID, news: set<MessageID>)
      requires Valid(news) && id in storage.messageDB
      ensures storage.Valid() && storage.view.Keys == storage.messageDB.Keys
      ensures storage.view[id].solid ==> Dag.ParentsIn(storage.messageDB, id, storage.messageDB.Keys)
      ensures storage.IsReady(id) ==> id in Eligible()
      ensures storage.IsReady(id) || id !in nonReadyMap || id !in Eligible()
      ensures storage.view[id].solid ==> (storage.IsReady(id) <==> id in Eligible())
    {
      hide Sorted, RoundRobin.Valid, Schedule.Justified, TotalLength, Storage.Storage.Valid;
    }

    // ----- entering -----

    /** Messages that do not wait for the scheduler: validation blocks, and all own messages of a spammer. */
    predicate Bypasses(m: Message) {
      m.validation || (m.issuer == peer && spamming)
    }

    /** The message need not wait, or has nothing to wait for. */
    ghost predicate MayBeScheduled(id: MessageID)
      reads storage, this`scheduledLog
    {
      && id in storage.messageDB
      && (|| multiset(scheduledLog)[id] < Schedule.Immediate(peer, spamming, storage.messageDB[id])
          || id in Eligible())
    }

    /** Schedules a message, and tells its children so twice: directly, and as a handler of the event. */
    method MarkScheduled(id: MessageID)
      requires Valid({}) && MayBeScheduled(id)
      modifies this`nonReadyMap, this`issuerQueues, this`readyLen, this`scheduledLog, this`confirmedThen
      modifies storage`view, storage.footprint
      ensures Valid({}) && OnlyMarked(old(storage.view), storage.view)
      ensures OnlyScheduled(old(storage.view), storage.view, id, true) && scheduledLog == old(scheduledLog) + [id]
      ensures confirmedThen == old(confirmedThen) + [Schedule.ConfirmedIDs(old(storage.view))]
      ensures Eligible() == old(Foreseen(id, true)) && nonReadyMap == old(nonReadyMap) - Eligible()
      ensures readyLen == old(readyLen) + |old(nonReadyMap).Keys * Eligible()|
    {
      hide ICCAScheduler.Placed, ICCAScheduler.History, EligibleSet, OnlyReadied, OnlyMarked, OnlyScheduled,
        MayBeScheduled;
      MayBe(id);
      Recorded(id, {});
      ghost var view0 := storage.view;
      SetScheduleTime(id);
      ghost var view1 := storage.view;
      UpdateChildrenReady(id);
      ghost var view2, left := storage.view, nonReadyMap;
      UpdateChildrenAgain(id);
      MarkedAndTold(view0, id, view1, view2, storage.view);
      TakenTwice(old(nonReadyMap), Eligible());
      NobodyLeft(old(nonReadyMap), left, Eligible());
      EligibleIsForeseen(storage.messageDB, view0, storage.view, config.confEligible, id, true);
    }

    lemma MayBe(id: MessageID)
      requires MayBeScheduled(id)
      ensures id in storage.messageDB
      ensures multiset(scheduledLog)[id] < Schedule.Immediate(peer, spamming, storage.messageDB[id])
           || Storage.ParentsEligible(storage.messageDB, storage.view, config.confEligible, id)
    {
    }

    method SetScheduleTime(id: MessageID)
      requires Valid({}) && MayBeScheduled(id)
      modifies this`scheduledLog, this`confirmedThen, storage`view, storage.footprint
      ensures Valid({id}) && storage.view == old(storage.view)[id := old(storage.view)[id].(scheduled := true)]
      ensures scheduledLog == old(scheduledLog) + [id]
      ensures confirmedThen == old(confirmedThen) + [Schedule.ConfirmedIDs(old(storage.view))]
    {
      label before:
      hide ICCAScheduler.Placed, ICCAScheduler.MayBeScheduled, Storage.Storage.Valid, Dag.WellFormed,
        Schedule.Justified, Storage.ParentsEligible, OnlyOneEligible, Storage.ChildrenIndexed;
      MayBe(id);
      StorageInOrder({});
      ghost var view := storage.view;
      storage.SetScheduled(id);
      ConfirmedOrScheduled(view, id, config.confEligible);
      BecameEligible@before(id);
      Schedule.OneMoreScheduled(storage.messageDB, view, config.confEligible, peer, spamming, scheduledLog,
                                confirmedThen, id);
      scheduledLog, confirmedThen := scheduledLog + [id], confirmedThen + [Schedule.ConfirmedIDs(view)];
    }

    /** The handler of the event repeats what was done already. */
    method UpdateChildrenAgain(id: MessageID)
      requires Valid({})
      modifies this`nonReadyMap, this`issuerQueues, this`readyLen, storage`view, storage.footprint
      ensures Valid({}) && OnlyReadied(old(storage.view), storage.view) && Eligible() == old(Eligible())
      ensures nonReadyMap == old(nonReadyMap) - Eligible()
      ensures readyLen == old(readyLen) + |old(nonReadyMap).Keys * Eligible()|
    {
      MoreNews(storage.messageDB, storage.view, config.confEligible, Contents(), id);
      hide Sorted, RoundRobin.Valid, EligibleSet, Storage.Storage.Valid, Schedule.Justified, OnlyReadied;
      UpdateChildrenReady(id);
    }

    /** The messages that have nothing to wait for once `id` is scheduled, if it is. */
    ghost function Foreseen(id: MessageID, really: bool): set<MessageID>
      reads storage`messageDB, storage`view
    {
      EligibleSet(storage.messageDB, WithScheduled(storage.view, id, really), config.confEligible)
    }

    /** The length of the queues before they are trimmed: the message enters, and perhaps wakes up others. */
    ghost function Fed(id: MessageID): int
      requires id in storage.messageDB
      reads storage`messageDB, storage`view, this`nonReadyMap, this`readyLen
    {
      var bypasses := Bypasses(storage.messageDB[id]);
      readyLen + (if bypasses then |nonReadyMap.Keys * Foreseen(id, true)| else 0)
               + (if id in Foreseen(id, bypasses) then 1 else 0)
    }

    /**
     Enters a booked message into one of the buffers, and drops messages only if the queues are too long by that.
     A message that need not wait is scheduled at once, whatever its parents are, and enters nevertheless.
     */
    method EnqueueMessage(id: MessageID) returns (ghost filled: seq<seq<Message>>, ghost drops: seq<int>)
      requires Valid({}) && Counted() && id in storage.messageDB && storage.view[id].solid && id !in enqueued
      modifies this`nonReadyMap, this`issuerQueues, this`readyLen, this`enqueued, this`popped, this`scheduledLog
      modifies this`confirmedThen, storage`view, storage.footprint
      ensures Valid({}) && Counted() && enqueued == old(enqueued) + {id}
      ensures OnlyMarked(old(storage.view), storage.view)
      ensures OnlyScheduled(old(storage.view), storage.view, id, Bypasses(storage.messageDB[id]))
      ensures scheduledLog == old(scheduledLog)
        + Schedule.Repeat(id, Schedule.Immediate(peer, spamming, storage.messageDB[id]))
      ensures storage.view[id].ready
      ensures var m := storage.messageDB[id];
        var eligible := old(Foreseen(id, Bypasses(storage.messageDB[id])));
        var waiting := if Bypasses(m) then old(nonReadyMap) - eligible else old(nonReadyMap);
        nonReadyMap == if id in eligible then waiting else waiting[id := m]
      ensures var fed := old(Fed(id));
        && readyLen == (if fed > config.maxBuffer then config.maxBuffer else fed)
        && (popped == old(popped) <==> fed <= config.maxBuffer)
      ensures Flows(config.maxBuffer, old(Flow()), Flow())
      // the queues hold everybody who ceased to wait and was not popped before, until they are trimmed
      ensures QueuesAre(storage.messageDB, filled, Left() - old(popped))
      ensures |filled| == |quanta| && DroppedFromLongest(quanta, Lengths(filled), drops)
      ensures Lengths(issuerQueues) == LengthsAfter(Lengths(filled), drops) && HeadsDropped(filled, issuerQueues)
    {
      hide ICCAScheduler.Placed, ICCAScheduler.History, EligibleSet, OnlyMarked, IsLongest, Lengths, LengthsAfter,
        DroppedFromLongest, Schedule.Counted, Schedule.Repeat, Schedule.Immediate, OnlyScheduled, ICCAScheduler.Fed,
        ICCAScheduler.Foreseen, ICCAScheduler.Bypasses, HeadsDropped, QueuesAre;
      Admit(id);
      EveryoneIsSomewhere();
      filled := issuerQueues;
      QueuesInOrder();
      EveryQueued(filled);
      SameNumberAsQueues(issuerQueues);
      drops := BufferManagement();
      Schedule.MorePopped(storage.messageDB, peer, spamming, scheduledLog, enqueued, old(popped), popped, served);
    }

    /** Enters a booked message into one of the buffers. */
    method Admit(id: MessageID)
      requires Valid({}) && Counted() && id in storage.messageDB && storage.view[id].solid && id !in enqueued
      modifies this`nonReadyMap, this`issuerQueues, this`readyLen, this`enqueued, this`scheduledLog
      modifies this`confirmedThen, storage`view, storage.footprint
      ensures Valid({}) && Counted() && enqueued == old(enqueued) + {id} && old(Left()) <= Left()
      ensures OnlyMarked(old(storage.view), storage.view)
      ensures OnlyScheduled(old(storage.view), storage.view, id, Bypasses(storage.messageDB[id]))
      ensures scheduledLog == old(scheduledLog)
        + Schedule.Repeat(id, Schedule.Immediate(peer, spamming, storage.messageDB[id]))
      ensures id in storage.view && storage.view[id].ready
      ensures var m := storage.messageDB[id];
        var eligible := old(Foreseen(id, Bypasses(storage.messageDB[id])));
        var waiting := if Bypasses(m) then old(nonReadyMap) - eligible else old(nonReadyMap);
        nonReadyMap == if id in eligible then waiting else waiting[id := m]
      ensures readyLen == old(Fed(id))
    {
      hide ICCAScheduler.Placed, ICCAScheduler.History, EligibleSet, OnlyReadied, OnlyMarked, Schedule.Counted,
        Schedule.Repeat, Schedule.Immediate, OnlyScheduled;
      Recorded(id, {});
      Schedule.OneMoreEnqueued(storage.messageDB, peer, spamming, scheduledLog, enqueued, popped, served, id);
      Bypass(id);
      ghost var view := storage.view;
      Enter(id);
      Recorded(id, {});
      MarkedThenReadied(old(storage.view), view, storage.view, id, Bypasses(storage.messageDB[id]));
      EligibleIsForeseen(storage.messageDB, old(storage.view), storage.view, config.confEligible, id,
                         Bypasses(storage.messageDB[id]));
    }

    /** Conservation: every enqueued message waits, is queued or left the queues. */
    lemma EveryoneIsSomewhere()
      requires Valid({})
      ensures |enqueued| == |nonReadyMap| + readyLen + |popped| && |Left()| == readyLen + |popped|
      ensures popped <= Left() <= enqueued && nonReadyMap.Keys <= enqueued
    {
      hide RoundRobin.Valid, Schedule.Justified, TotalLength, Storage.Storage.Valid, QueuedAreEligible,
        WaitingForParents, QueuesHold;
      Buffers.EveryoneIsSomewhere(storage.messageDB, Contents());
    }

    lemma EveryQueued(queues: seq<seq<Message>>)
      requires Valid({}) && queues == issuerQueues
      ensures QueuesAre(storage.messageDB, queues, Left() - popped)
    {
      hide RoundRobin.Valid, Schedule.Justified, TotalLength, Storage.Storage.Valid, QueuedAreEligible,
        WaitingForParents, IsHeap;
      forall m: Message
        ensures InQueue(queues, m)
           <==> m.id in Left() - popped && m.id in storage.messageDB && storage.messageDB[m.id] == m
      {
        QueuedMessage(storage.messageDB, Contents(), m);
      }
    }

    lemma QueuesInOrder()
      requires Valid({})
      ensures Sensible() && |issuerQueues| == |quanta| && readyLen == TotalLength(issuerQueues)
    {
      hide Sorted, Schedule.Justified, TotalLength, Storage.Storage.Valid;
    }

    lemma Recorded(id: MessageID, news: set<MessageID>)
      requires Valid(news) && id in storage.messageDB
      ensures id in storage.view
    {
      hide Sorted, RoundRobin.Valid, Schedule.Justified, TotalLength, Storage.Storage.Valid;
    }

    /** Schedules the message right away if it need not wait, perhaps for both reasons. */
    method Bypass(id: MessageID)
      requires Valid({}) && id in storage.messageDB && multiset(scheduledLog)[id] == 0
      modifies this`nonReadyMap, this`issuerQueues, this`readyLen, this`scheduledLog, this`confirmedThen
      modifies storage`view, storage.footprint
      ensures Valid({}) && OnlyMarked(old(storage.view), storage.view)
      ensures OnlyScheduled(old(storage.view), storage.view, id, Bypasses(storage.messageDB[id]))
      ensures scheduledLog == old(scheduledLog)
        + Schedule.Repeat(id, Schedule.Immediate(peer, spamming, storage.messageDB[id]))
      ensures nonReadyMap ==
        if Bypasses(storage.messageDB[id]) then old(nonReadyMap) - Eligible() else old(nonReadyMap)
      ensures readyLen == old(readyLen)
        + if Bypasses(storage.messageDB[id]) then |old(nonReadyMap).Keys * Eligible()| else 0
      ensures storage.view[id].solid == old(storage.view)[id].solid
    {
      hide ICCAScheduler.Placed, ICCAScheduler.History, EligibleSet, OnlyMarked, OnlyScheduled, Schedule.Repeat;
      var m := storage.messageDB[id];
      Recorded(id, {});
      ghost var log, waiting, view0 := scheduledLog, nonReadyMap, storage.view;
      ScheduleIf(id, m.validation);
      ghost var view1 := storage.view;
      Schedule.RepeatCounts(id, if m.validation then 1 else 0);
      ScheduleIf(id, m.issuer == peer && spamming);
      Schedule.RepeatTwice(id, if m.validation then 1 else 0, if m.issuer == peer && spamming then 1 else 0);
      MarkedTwice(view0, view1, storage.view);
      ScheduledTwice(view0, view1, storage.view, id, m.validation, m.issuer == peer && spamming);
      StillSolid(view0, storage.view);
      MoreEligible(storage.messageDB, view1, storage.view, config.confEligible);
      TakenInTwo(waiting, EligibleSet(storage.messageDB, view1, config.confEligible), Eligible());
    }

    method ScheduleIf(id: MessageID, really: bool)
      requires Valid({}) && (really ==> MayBeScheduled(id)) && id in storage.messageDB
      modifies this`nonReadyMap, this`issuerQueues, this`readyLen, this`scheduledLog, this`confirmedThen
      modifies storage`view, storage.footprint
      ensures Valid({}) && OnlyMarked(old(storage.view), storage.view)
      ensures OnlyScheduled(old(storage.view), storage.view, id, really)
      ensures !really ==> storage.view == old(storage.view)
      ensures scheduledLog == old(scheduledLog) + Schedule.Repeat(id, if really then 1 else 0)
      ensures nonReadyMap == if really then old(nonReadyMap) - Eligible() else old(nonReadyMap)
      ensures readyLen == old(readyLen) + if really then |old(nonReadyMap).Keys * Eligible()| else 0
    {
      hide ICCAScheduler.Placed, ICCAScheduler.History, EligibleSet, OnlyMarked, OnlyScheduled;
      NothingMarked(storage.view);
      NothingScheduled(storage.view, id);
      if really {
        MarkScheduled(id);
      }
    }

    /** Puts a new message into its queue or with the messages that are not ready. */
    method Enter(id: MessageID)
      requires Valid({}) && id in storage.messageDB && storage.view[id].solid && id !in enqueued
      modifies this`nonReadyMap, this`issuerQueues, this`readyLen, this`enqueued, storage`view, storage.footprint
      ensures Valid({}) && enqueued == old(enqueued) + {id}
      ensures OnlyReadied(old(storage.view), storage.view) && Eligible() == old(Eligible())
      ensures nonReadyMap
         == if id in Eligible() then old(nonReadyMap) else old(nonReadyMap)[id := storage.messageDB[id]]
      ensures readyLen == old(readyLen) + if id in Eligible() then 1 else 0
      ensures storage.view[id].ready
    {
      hide ICCAScheduler.Placed, ICCAScheduler.History, Storage.Storage.Valid, EligibleSet, OnlyReadied;
      ReadyIff(id, {});
      var ready := storage.IsReady(id);
      MarkReady(id, {});
      if ready {
        EnterReady(id);
      } else {
        EnterNonReady(id);
      }
    }

    method EnterReady(id: MessageID)
      requires Valid({}) && id in Eligible() && id !in enqueued
      modifies this`issuerQueues, this`readyLen, this`enqueued
      ensures Valid({}) && enqueued == old(enqueued) + {id} && readyLen == old(readyLen) + 1
    {
      hide Sorted, RoundRobin.Valid, Storage.Storage.Valid, EligibleSet, SolidHasParents, Dag.WellFormed, TotalLength,
        Schedule.Justified;
      ghost var before := Contents();
      EligibleHasParents(storage.messageDB, storage.view, config.confEligible, id);
      Dag.StoredIsWellFormed(storage.messageDB, id);
      SortedQueues(storage.messageDB, storage.view, config.confEligible, before, {});
      var m := storage.messageDB[id];
      Push(m);
      enqueued := enqueued + {id};
      EnteringReady(storage.messageDB, storage.view, config.confEligible, before, m, issuerQueues[m.issuer]);
    }

    method EnterNonReady(id: MessageID)
      requires Valid({}) && id in storage.messageDB && storage.view[id].solid && id !in Eligible() && id !in enqueued
      modifies this`nonReadyMap, this`enqueued
      ensures Valid({}) && enqueued == old(enqueued) + {id}
      ensures nonReadyMap == old(nonReadyMap)[id := storage.messageDB[id]]
    {
      hide Sorted, RoundRobin.Valid, Storage.Storage.Valid, EligibleSet, SolidHasParents, Dag.WellFormed, TotalLength,
        Schedule.Justified;
      EligibleHasParents(storage.messageDB, storage.view, config.confEligible, id);
      Dag.StoredIsWellFormed(storage.messageDB, id);
      EnteringNonReady(storage.messageDB, storage.view, config.confEligible, Contents(), storage.messageDB[id]);
      nonReadyMap := nonReadyMap[id := storage.messageDB[id]];
      enqueued := enqueued + {id};
    }

    // ----- trimming -----

    /** Drops the first messages of the longest queues until the buffer fits. */
    method BufferManagement() returns (ghost drops: seq<int>)
      requires Valid({})
      modifies this`issuerQueues, this`readyLen, this`popped
      ensures Valid({}) && old(popped) <= popped
      ensures readyLen == if old(readyLen) > config.maxBuffer then config.maxBuffer else old(readyLen)
      ensures DroppedFromLongest(quanta, Lengths(old(issuerQueues)), drops)
      ensures Lengths(issuerQueues) == LengthsAfter(Lengths(old(issuerQueues)), drops)
      ensures |drops| == old(readyLen) - readyLen && (drops == [] <==> popped == old(popped))
      ensures HeadsDropped(old(issuerQueues), issuerQueues)
    {
      hide ICCAScheduler.Placed, ICCAScheduler.History, IsLongest, Lengths, HeadsDropped;
      drops := [];
      NoneDropped(issuerQueues);
      QueuesInOrder();
      SameNumberAsQueues(issuerQueues);
      while readyLen > config.maxBuffer
        invariant Valid({}) && Sensible() && old(popped) <= popped
        invariant readyLen <= old(readyLen) && (readyLen == old(readyLen) || readyLen >= config.maxBuffer)
        invariant |Lengths(old(issuerQueues))| == |quanta|
        invariant |LengthsAfter(Lengths(old(issuerQueues)), drops)| == |quanta|
        invariant DroppedFromLongest(quanta, Lengths(old(issuerQueues)), drops)
        invariant Lengths(issuerQueues) == LengthsAfter(Lengths(old(issuerQueues)), drops)
        invariant |drops| == old(readyLen) - readyLen && (drops == [] <==> popped == old(popped))
        invariant HeadsDropped(old(issuerQueues), issuerQueues)
      {
        hide DroppedFromLongest, LengthsAfter;
        QueuesInOrder();
        ghost var queues := issuerQueues;
        var issuerID, m := DropOne();
        OneMoreDropped(old(issuerQueues), queues, issuerID, m, issuerQueues[issuerID]);
        RecordDrop(quanta, Lengths(old(issuerQueues)), drops, issuerID);
        drops := drops + [issuerID];
      }
    }

    method DropOne() returns (issuerID: PeerID, ghost m: Message)
      requires Valid({}) && readyLen > 0
      modifies this`issuerQueues, this`readyLen, this`popped
      ensures Valid({}) && readyLen == old(readyLen) - 1 && old(popped) < popped
      ensures 0 <= issuerID < |quanta| && IsLongest(quanta, Lengths(old(issuerQueues)), issuerID)
      ensures var lengths := Lengths(old(issuerQueues));
        lengths[issuerID] > 0 && Lengths(issuerQueues) == lengths[issuerID := lengths[issuerID] - 1]
      ensures |issuerQueues| == |old(issuerQueues)| == |quanta| && m in old(issuerQueues)[issuerID]
      ensures issuerQueues == old(issuerQueues)[issuerID := issuerQueues[issuerID]]
      ensures multiset(old(issuerQueues)[issuerID]) == multiset(issuerQueues[issuerID]) + multiset{m}
      ensures forall x :: x in old(issuerQueues)[issuerID] ==>
        m.issuanceTime % 1_000_000_000 <= x.issuanceTime % 1_000_000_000
    {
      hide Sorted, RoundRobin.Valid, Storage.Storage.Valid, SolidHasParents, TotalLength;
      issuerID := LongestIssuer();
      ghost var k := NonEmptyQueue(issuerQueues);
      LongestIsNotEmpty(quanta, Lengths(issuerQueues), issuerID, k);
      var head := Pop(issuerID);
      m := head;
    }

    method LongestIssuer() returns (issuerID: PeerID)
      requires Sensible() && |issuerQueues| == |quanta|
      ensures IsLongest(quanta, Lengths(issuerQueues), issuerID)
    {
      issuerID := 0;
      var maxScaledLen := 0.0;
      for id := 0 to config.nodesCount
        invariant 0 <= issuerID < |quanta|
        invariant id == 0 ==> maxScaledLen == 0.0
        invariant id > 0 ==> maxScaledLen == |issuerQueues[issuerID]| as real / quanta[issuerID]
        invariant forall k :: 0 <= k < id ==> Lengths(issuerQueues)[k] as real / quanta[k] <= maxScaledLen
        invariant forall k :: issuerID < k < id ==> Lengths(issuerQueues)[k] as real / quanta[k] < maxScaledLen
      {
        var scaledLen := |issuerQueues[id]| as real / quanta[id];
        assert scaledLen >= 0.0;
        if scaledLen >= maxScaledLen {
          maxScaledLen := scaledLen;
          issuerID := id;
        }
      }
    }

    // ----- scheduling -----

    ghost function Backlog(): set<int>
      reads this`issuerQueues
    {
      set i | 0 <= i < |issuerQueues| && issuerQueues[i] != []
    }

    lemma NobodyIsQueued(m: Message)
      requires Backlog() == {}
      ensures !InQueue(issuerQueues, m)
    {
      assert m.issuer !in Backlog();
    }

    /** The length tells whether any queue holds a message. */
    lemma BacklogIffLength()
      requires Valid({})
      ensures readyLen == 0 <==> Backlog() == {}
    {
      hide ICCAScheduler.Valid;
      QueuesInOrder();
      EmptyQueues(issuerQueues);
      if Backlog() == {} {
        forall i | 0 <= i < |issuerQueues|
          ensures issuerQueues[i] == []
        {
          assert i !in Backlog();
        }
      }
    }

    method IncrementDeficit(issuer: PeerID, delta: real)
      requires 0 <= issuer < |deficits|
      modifies this`deficits
      ensures deficits == old(deficits)[issuer := RoundRobin.Min(old(deficits)[issuer] + delta, config.maxDeficit)]
    {
      deficits := deficits[issuer := RoundRobin.Min(deficits[issuer] + delta, config.maxDeficit)];
    }

    /** Finds the backlogged issuer with the least rounds to wait, and leaves the ring pointer where it was. */
    method SelectIssuer() returns (rounds: real, issuerID: PeerID)
      requires Sensible() && RoundRobin.Valid(Rates(), Ring()) && |issuerQueues| == |quanta|
      modifies this`roundRobin
      ensures roundRobin == old(roundRobin)
      ensures issuerID == -1 <==> Backlog() == {}
      ensures issuerID != -1 ==> RoundRobin.Selected(Rates(), Ring(), Backlog(), issuerID, rounds)
    {
      hide RoundRobin.Wait;
      rounds, issuerID := 0.0, -1;
      var n := |quanta|;
      ghost var start := roundRobin;
      for i := 0 to n
        invariant 0 <= roundRobin < n
        invariant roundRobin == if start + i < n then start + i else start + i - n
        invariant issuerID == -1 ==> forall k :: 0 <= k < n && k in Backlog() ==> RoundRobin.Distance(n, start, k) >= i
        invariant issuerID != -1 ==> SelectedSoFar(start, i, issuerID, rounds)
      {
        var id := roundRobin;
        assert RoundRobin.Distance(n, start, id) == i;
        if |issuerQueues[id]| != 0 {
          var r := RoundRobin.Wait(Rates(), deficits, id);
          if issuerID == -1 || r < rounds {
            rounds := r;
            issuerID := id;
          }
        }
        roundRobin := RoundRobin.Next(n, roundRobin);
      }
    }

    /** The choice among the first `i` issuers of the ring. */
    ghost predicate SelectedSoFar(start: int, i: int, chosen: int, rounds: real)
      requires Sensible() && |deficits| == |quanta|
      reads this`deficits, this`issuerQueues
    {
      && chosen in Backlog() && 0 <= chosen < |quanta| && RoundRobin.Distance(|quanta|, start, chosen) < i
      && rounds == RoundRobin.Wait(Rates(), deficits, chosen)
      && forall k :: 0 <= k < |quanta| && k in Backlog() && RoundRobin.Distance(|quanta|, start, k) < i ==>
           && rounds <= RoundRobin.Wait(Rates(), deficits, k)
           && (RoundRobin.Distance(|quanta|, start, k) < RoundRobin.Distance(|quanta|, start, chosen) ==>
                rounds < RoundRobin.Wait(Rates(), deficits, k))
    }

    /** Credits the rounds to everybody, and one more quantum to the issuers before the selected one. */
    method Credit(rounds: real, selected: PeerID)
      requires Sensible() && RoundRobin.Valid(Rates(), Ring()) && 0 <= selected < |quanta| && 0.0 <= rounds
      modifies this`deficits, this`roundRobin
      ensures roundRobin == selected && RoundRobin.Valid(Rates(), Ring()) && |deficits| == |quanta|
      ensures forall i :: 0 <= i < |quanta| ==>
        deficits[i] == RoundRobin.Credited(old(deficits)[i], RoundRobin.Times(rounds, quanta[i]), quanta[i],
                                           RoundRobin.Passed(Rates(), old(roundRobin), selected, i), config.maxDeficit)
    {
      var n := config.nodesCount;
      hide RoundRobin.Times;
      for id := 0 to n
        invariant |deficits| == n && roundRobin == old(roundRobin)
        invariant forall k :: id <= k < n ==> deficits[k] == old(deficits)[k]
        invariant forall k :: 0 <= k < id ==>
          deficits[k] == RoundRobin.Min(old(deficits)[k] + RoundRobin.Times(rounds, quanta[k]), config.maxDeficit)
      {
        IncrementDeficit(id, RoundRobin.Times(rounds, quanta[id]));
      }
      ghost var start := roundRobin;
      while roundRobin != selected
        invariant 0 <= roundRobin < n && |deficits| == n
        invariant RoundRobin.Distance(n, start, roundRobin) <= RoundRobin.Distance(n, start, selected)
        invariant forall k :: 0 <= k < n ==>
          deficits[k] == RoundRobin.Credited(
            old(deficits)[k], RoundRobin.Times(rounds, quanta[k]), quanta[k],
            RoundRobin.Distance(n, start, k) < RoundRobin.Distance(n, start, roundRobin), config.maxDeficit)
        decreases RoundRobin.Distance(n, roundRobin, selected)
      {
        IncrementDeficit(roundRobin, quanta[roundRobin]);
        roundRobin := RoundRobin.Next(n, roundRobin);
      }
      forall k | 0 <= k < n
        ensures 0.0 <= deficits[k] <= config.maxDeficit
      {
        RoundRobin.CreditedIsInRange(old(deficits)[k], rounds, quanta[k],
                                     RoundRobin.Passed(Rates(), start, selected, k), config.maxDeficit);
      }
    }

    /** One tick: schedules exactly one message if any queue holds one, by one step of the round robin. */
    method ScheduleMessage() returns (ghost turn: RoundRobin.Turn, ghost m: Message)
      requires Valid({}) && Logged() && Counted()
      modifies this, storage`view, storage.footprint
      ensures Valid({}) && Logged() && Counted() && enqueued == old(enqueued) && accessMana == old(accessMana)
      ensures OnlyMarked(old(storage.view), storage.view)
      ensures old(Backlog()) == {} ==>
        && Contents() == old(Contents()) && Ring() == old(Ring()) && run == old(run)
        && storage.view == old(storage.view)
        && scheduledLog == old(scheduledLog) && confirmedThen == old(confirmedThen) && served == old(served)
      ensures old(Backlog()) != {} ==>
        && RoundRobin.Step(Rates(), old(Ring()), turn, Ring()) && turn.backlog == old(Backlog())
        && run == RoundRobin.Call(old(run), turn, Ring())
        && m.issuer == turn.chosen && 0 <= m.issuer < |old(issuerQueues)| && m in old(issuerQueues)[m.issuer]
        && (forall x :: x in old(issuerQueues)[m.issuer] ==>
             m.issuanceTime % 1_000_000_000 <= x.issuanceTime % 1_000_000_000)
        && m.id !in old(popped) && popped == old(popped) + {m.id} && served == old(served) + {m.id}
        && nonReadyMap == old(nonReadyMap) - old(Foreseen(m.id, true))
        && readyLen == old(readyLen) - 1 + |old(nonReadyMap).Keys * old(Foreseen(m.id, true))|
        && OnlyScheduled(old(storage.view), storage.view, m.id, true) && scheduledLog == old(scheduledLog) + [m.id]
        && confirmedThen == old(confirmedThen) + [Schedule.ConfirmedIDs(old(storage.view))]
    {
      hide ICCAScheduler.Placed, ICCAScheduler.History, RoundRobin.Valid, RoundRobin.Step, RoundRobin.Selected,
        EligibleSet, OnlyMarked, OnlyScheduled, Schedule.Counted;
      RingInOrder();
      NothingMarked(storage.view);
      turn := RoundRobin.Turn({}, 0, 0.0);
      m := *;
      var rounds, selectedIssuerID := SelectIssuer();
      if selectedIssuerID == -1 {
        return;
      }
      turn := RoundRobin.Turn(Backlog(), selectedIssuerID, rounds);
      RoundRobin.SelectedIsBacklogged(Rates(), Ring(), turn);
      m := ScheduleNext(rounds, selectedIssuerID, turn);
    }

    /** Serves the selected issuer and schedules the message. */
    method ScheduleNext(rounds: real, selected: PeerID, ghost turn: RoundRobin.Turn) returns (m: Message)
      requires Valid({}) && Logged() && Counted() && RoundRobin.Valid(Rates(), Ring())
      requires RoundRobin.Selected(Rates(), Ring(), turn.backlog, turn.chosen, turn.rounds)
      requires turn == RoundRobin.Turn(Backlog(), selected, rounds)
      modifies this, storage`view, storage.footprint
      ensures Valid({}) && Logged() && Counted() && enqueued == old(enqueued) && accessMana == old(accessMana)
      ensures OnlyMarked(old(storage.view), storage.view)
      ensures RoundRobin.Step(Rates(), old(Ring()), turn, Ring()) && run == RoundRobin.Call(old(run), turn, Ring())
      ensures m.issuer == turn.chosen && m in old(issuerQueues)[m.issuer]
      ensures forall x :: x in old(issuerQueues)[m.issuer] ==>
        m.issuanceTime % 1_000_000_000 <= x.issuanceTime % 1_000_000_000
      ensures m.id !in old(popped) && popped == old(popped) + {m.id} && served == old(served) + {m.id}
      ensures nonReadyMap == old(nonReadyMap) - old(Foreseen(m.id, true))
      ensures readyLen == old(readyLen) - 1 + |old(nonReadyMap).Keys * old(Foreseen(m.id, true))|
      ensures OnlyScheduled(old(storage.view), storage.view, m.id, true) && scheduledLog == old(scheduledLog) + [m.id]
      ensures confirmedThen == old(confirmedThen) + [Schedule.ConfirmedIDs(old(storage.view))]
    {
      hide ICCAScheduler.Placed, ICCAScheduler.History, ICCAScheduler.Logged, RoundRobin.Valid, RoundRobin.Step,
        RoundRobin.Selected, EligibleSet, OnlyMarked, OnlyScheduled, Schedule.Counted, ICCAScheduler.Foreseen,
        Schedule.ConfirmedIDs;
      m := ServeAndLog(rounds, selected, turn);
      NotServedYet(m.id, old(popped));
      Schedule.OneMoreServed(storage.messageDB, peer, spamming, scheduledLog, enqueued, old(popped), served, m.id);
      MarkScheduled(m.id);
      served := served + {m.id};
    }

    method ServeAndLog(rounds: real, selected: PeerID, ghost turn: RoundRobin.Turn) returns (m: Message)
      requires Valid({}) && Logged() && RoundRobin.Valid(Rates(), Ring())
      requires RoundRobin.Selected(Rates(), Ring(), turn.backlog, turn.chosen, turn.rounds)
      requires turn == RoundRobin.Turn(Backlog(), selected, rounds)
      modifies this`deficits, this`roundRobin, this`issuerQueues, this`readyLen, this`popped, this`run
      ensures Valid({}) && Logged()
      ensures RoundRobin.Step(Rates(), old(Ring()), turn, Ring()) && run == RoundRobin.Call(old(run), turn, Ring())
      ensures m.issuer == turn.chosen && m in old(issuerQueues)[m.issuer] && m.id in storage.messageDB
      ensures forall x :: x in old(issuerQueues)[m.issuer] ==>
        m.issuanceTime % 1_000_000_000 <= x.issuanceTime % 1_000_000_000
      ensures popped == old(popped) + {m.id} && readyLen == old(readyLen) - 1
      ensures m.id in enqueued && m.id !in old(popped) && m.id in Eligible()
    {
      hide ICCAScheduler.Placed, ICCAScheduler.History, RoundRobin.Valid, RoundRobin.Step, RoundRobin.Selected,
        EligibleSet;
      m := Serve(rounds, selected, turn);
      run := RoundRobin.Call(run, turn, Ring());
      OneMoreCall(Rates(), old(run), turn, Ring());
    }

    lemma RingInOrder()
      requires Valid({})
      ensures Sensible() && RoundRobin.Valid(Rates(), Ring()) && |issuerQueues| == |quanta|
    {
      hide Sorted, Schedule.Justified, TotalLength, Storage.Storage.Valid;
    }

    lemma ServedWerePopped()
      requires Counted()
      ensures served <= popped
    {
    }

    lemma NotServedYet(id: MessageID, before: set<MessageID>)
      requires Schedule.Counted(storage.messageDB, peer, spamming, scheduledLog, enqueued, before, served)
      requires id !in before
      ensures id !in served
    {
    }

    // ----- access mana -----

    /** What a message issued now would have to burn, and whether the own access mana is enough for that. */
    method BurnValue(issuanceTime: Time) returns (rmc: real, ok: bool)
      requires Valid({}) && Funded() && 0 <= peer < |quanta|
      modifies storage`rmc, storage`slotDB, storage`touches
      ensures Valid({})
      ensures var slot := Storage.SlotIndex(config, storage.genesisTime, issuanceTime);
        && rmc == ManaCost.At(storage.rmc, slot) && slot in storage.slotDB && slot in storage.rmc
        && storage.touches == old(storage.touches)
             + [ManaCost.Asked(slot, Storage.Traffic(config, old(storage.slotDB), slot))]
      ensures ok <==> accessMana[peer] >= rmc
    {
      label before:
      hide ICCAScheduler.Placed, ICCAScheduler.History, Storage.Storage.Valid, Dag.WellFormed, Storage.ChildrenIndexed,
        Storage.Traffic, SolidHasParents, NothingNewEligible;
      StorageInOrder({});
      ParentsInOrder();
      rmc := storage.RMC(Storage.SlotIndex(config, storage.genesisTime, issuanceTime));
      NothingNew(storage.messageDB, storage.view, config.confEligible);
      StorageChanged@before({});
      ok := accessMana[peer] >= rmc;
    }

    /** Every tick everybody earns ten times the own quantum. */
    method IncrementAccessMana()
      requires Sensible() && Funded()
      modifies this`accessMana
      ensures Funded() && forall i :: 0 <= i < |quanta| ==> accessMana[i] == old(accessMana)[i] + 10.0 * quanta[i]
    {
      ghost var before := accessMana;
      for id := 0 to |accessMana|
        invariant |accessMana| == |before|
        invariant forall i :: 0 <= i < id ==> accessMana[i] == before[i] + 10.0 * quanta[i]
        invariant forall i :: id <= i < |before| ==> accessMana[i] == before[i]
      {
        accessMana := accessMana[id := accessMana[id] + 10.0 * quanta[id]];
      }
    }

    /** The issuer pays, and gets into debt exactly if it pays more than it has. */
    method DecreaseNodeAccessMana(nodeID: PeerID, manaIncrement: real) returns (newAccessMana: real)
      requires 0 <= nodeID < |accessMana|
      modifies this`accessMana
      ensures accessMana == old(accessMana)[nodeID := old(accessMana)[nodeID] - manaIncrement]
      ensures newAccessMana == accessMana[nodeID]
      ensures old(Funded()) ==> (Funded() <==> manaIncrement <= old(accessMana)[nodeID])
    {
      accessMana := accessMana[nodeID := accessMana[nodeID] - manaIncrement];
      newAccessMana := accessMana[nodeID];
    }

    /** Moves the ring to the chosen issuer, settles the deficits, and takes its first message. */
    method Serve(rounds: real, selected: PeerID, ghost turn: RoundRobin.Turn) returns (m: Message)
      requires Valid({}) && RoundRobin.Selected(Rates(), Ring(), turn.backlog, turn.chosen, turn.rounds)
      requires turn == RoundRobin.Turn(Backlog(), selected, rounds)
      modifies this`deficits, this`roundRobin, this`issuerQueues, this`readyLen, this`popped
      ensures Valid({}) && RoundRobin.Step(Rates(), old(Ring()), turn, Ring())
      ensures m.issuer == turn.chosen && m in old(issuerQueues)[m.issuer] && m.id in storage.messageDB
      ensures forall x :: x in old(issuerQueues)[m.issuer] ==>
        m.issuanceTime % 1_000_000_000 <= x.issuanceTime % 1_000_000_000
      ensures popped == old(popped) + {m.id} && readyLen == old(readyLen) - 1
      ensures m.id in enqueued && m.id !in old(popped) && m.id in Eligible()
    {
      hide Sorted, Storage.Storage.Valid, RoundRobin.Wait, RoundRobin.Valid, RoundRobin.Selected, RoundRobin.Credited,
        RoundRobin.Passed, RoundRobin.Times, RoundRobin.Step, SolidHasParents, TotalLength, Dag.WellFormed;
      ghost var ring := Ring();
      RoundRobin.SelectedIsBacklogged(Rates(), ring, turn);
      Credit(rounds, selected);
      ghost var credited := deficits;
      m := Pop(roundRobin);
      IncrementDeficit(roundRobin, -1.0);
      RoundRobin.CreditThenCharge(Rates(), ring, turn, credited, Ring());
    }
  }

  lemma {:induction false} OneMoreCall(
    c: RoundRobin.Rates, run: RoundRobin.Run, turn: RoundRobin.Turn, s: RoundRobin.State)
    requires c.Sensible() && run.Proper(c) && RoundRobin.Valid(c, run.s) && RoundRobin.Step(c, run.s, turn, s)
    ensures RoundRobin.Call(run, turn, s).Proper(c)
  {
  }

  lemma OneReadied(db: Dag.Ledger, view: View, id: MessageID, confEligible: bool)
    requires id in view && SolidHasParents(db, view)
    ensures var view' := view[id := view[id].(ready := true)];
      && OnlyReadied(view, view') && NothingNewEligible(view, view', confEligible)
      && SolidHasParents(db, view') && EligibleSet(db, view', confEligible) == EligibleSet(db, view, confEligible)
      && forall x :: x in view && view[x].solid ==> view'[x].solid
  {
    var view' := view[id := view[id].(ready := true)];
    forall x | x in db
      ensures Storage.ParentsEligible(db, view, confEligible, x)
         <==> Storage.ParentsEligible(db, view', confEligible, x)
    {
    }
  }

  lemma NothingScheduled(view: View, id: MessageID)
    ensures OnlyScheduled(view, view, id, false)
  {
  }

  lemma ScheduledTwice(a: View, b: View, c: View, id: MessageID, before: bool, after: bool)
    requires OnlyScheduled(a, b, id, before) && OnlyScheduled(b, c, id, after)
    ensures OnlyScheduled(a, c, id, before || after)
  {
  }

  lemma SameNumberAsQueues(queues: seq<seq<Message>>)
    ensures |Lengths(queues)| == |queues|
  {
  }

  lemma MoreEligible(db: Dag.Ledger, a: View, b: View, confEligible: bool)
    requires OnlyMarked(a, b)
    ensures EligibleSet(db, a, confEligible) <= EligibleSet(db, b, confEligible)
  {
  }

  lemma TakenInTwo(before: map<MessageID, Message>, some: set<MessageID>, more: set<MessageID>)
    requires some <= more
    ensures before - some - more == before - more
    ensures |before.Keys * some| + |(before - some).Keys * more| == |before.Keys * more|
  {
    assert (before - some).Keys * more == before.Keys * more - before.Keys * some;
    assert before.Keys * some <= before.Keys * more;
  }

  lemma StillSolid(a: View, b: View)
    requires OnlyMarked(a, b)
    ensures forall x :: x in a ==> b[x].solid == a[x].solid
  {
  }

  lemma MarkedThenReadied(a: View, b: View, c: View, id: MessageID, really: bool)
    requires OnlyMarked(a, b) && OnlyReadied(b, c) && OnlyScheduled(a, b, id, really)
    ensures OnlyMarked(a, c) && OnlyScheduled(a, c, id, really)
  {
  }

  lemma TakenTwice(before: map<MessageID, Message>, eligible: set<MessageID>)
    ensures before - eligible - eligible == before - eligible
  {
  }

  lemma NothingNew(db: Dag.Ledger, view: View, confEligible: bool)
    ensures NothingNewEligible(view, view, confEligible) && Dag.Extends(db, db)
  {
  }

  lemma NobodyLeft(before: map<MessageID, Message>, left: map<MessageID, Message>, eligible: set<MessageID>)
    requires left == before - eligible
    ensures |left.Keys * eligible| == 0
  {
    assert left.Keys * eligible == {};
  }

  lemma AllDone(before: map<MessageID, Message>, eligible: set<MessageID>, children: set<MessageID>)
    ensures before == before - (children - children) * eligible
  {
  }

  lemma OneMoreDone(
    before: map<MessageID, Message>, eligible: set<MessageID>,
    children: set<MessageID>, todo: set<MessageID>, child: MessageID)
    requires todo <= children && child in todo
    ensures before - (children - todo) * eligible - {child} * eligible
       == before - (children - (todo - {child})) * eligible
  {
  }

  lemma NoneLeft(
    before: map<MessageID, Message>, after: map<MessageID, Message>,
    strong: set<MessageID>, weak: set<MessageID>, eligible: set<MessageID>)
    requires after == before - strong * eligible - weak * eligible
    requires forall x :: x in after ==> x !in eligible
    ensures after == before - eligible
  {
    forall x | x in before
      ensures x in after <==> x !in eligible
    {
    }
  }
}
