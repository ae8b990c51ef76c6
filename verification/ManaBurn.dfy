/** The scheduler that serves the highest bidder (multiverse/manaburn_scheduler.go). */
module ManaBurn {
  import opened Messages
  import opened Parameters
  import opened Heaps
  import Buffers
  import Dag
  import Storage

  // ----- the best messages of many -----

  /** `q` holds the `k` best of `all`: what is kept burns more than what was left out, or as much but no later. */
  ghost predicate Best(k: nat, all: multiset<Message>, q: multiset<Message>) {
    && q <= all && |q| == (if |all| < k then |all| else k)
    && forall kept, left :: kept in q && left in all - q ==> NoLater(ByBurn, kept, left)
  }

  lemma AllFit(k: nat, all: multiset<Message>)
    requires |all| <= k
    ensures Best(k, all, all)
  {
    assert all - all == multiset{};
  }

  /** The best are determined up to exchanging messages with the same burn and time. */
  lemma BestIsUnique(k: nat, all: multiset<Message>, q: multiset<Message>, q': multiset<Message>)
    requires Best(k, all, q) && Best(k, all, q')
    ensures |q - q'| == |q' - q|
    ensures forall x, y :: x in q - q' && y in q' - q ==>
      x.manaBurnValue == y.manaBurnValue && x.issuanceTime % 1_000_000_000 == y.issuanceTime % 1_000_000_000
  {
    assert q == (q - q') + (q * q') && q' == (q' - q) + (q * q');
    forall x, y | x in q - q' && y in q' - q
      ensures NoLater(ByBurn, x, y) && NoLater(ByBurn, y, x)
    {
      assert x in all - q' && y in all - q;
    }
  }

  lemma FewEnough(k: nat, n: nat, all: multiset<Message>, q: multiset<Message>)
    requires Best(n, all, q) && |q| == n <= k && (n == k || n == |all|)
    ensures Best(k, all, q)
  {
  }

  /** Keeping the best of what was kept and one newcomer keeps the best of all. */
  lemma BestOfBest(k: nat, all: multiset<Message>, q: multiset<Message>, m: Message, q': multiset<Message>)
    requires Best(k, all, q) && Best(k, q + multiset{m}, q')
    ensures Best(k, all + multiset{m}, q')
  {
    forall kept, left | kept in q' && left in all + multiset{m} - q'
      ensures NoLater(ByBurn, kept, left)
    {
      if left !in q + multiset{m} - q' {
        LeftBefore(k, all, q, m, q', kept, left);
      }
    }
    if |all| < k {
      assert all - q == multiset{} by {
        assert all == q + (all - q);
      }
      assert q == all;
    }
  }

  /** The left-out message was left out before the newcomer arrived. */
  lemma LeftBefore(
    k: nat, all: multiset<Message>, q: multiset<Message>, m: Message, q': multiset<Message>, kept: Message,
    left: Message)
    requires Best(k, all, q) && Best(k, q + multiset{m}, q')
    requires kept in q' && left in all + multiset{m} - q' && left !in q + multiset{m} - q'
    ensures NoLater(ByBurn, kept, left)
  {
    hide NoLater;
    assert left in all - q;
    if kept !in q {
      assert kept == m;
      var out := q + multiset{m} - q';
      assert q + multiset{m} == q' + out;
      assert all == q + (all - q);
      assert |q| == k && |out| == 1;
      var w :| w in out;
      assert w in q;
      NoLaterIsTransitive(ByBurn, kept, w, left);
    }
  }

  /** Leaving out a message that comes before none of the others leaves the best. */
  lemma LastLeavesBest(all: multiset<Message>, q: multiset<Message>, w: Message)
    requires Best(|q|, all, q) && w in q && forall x :: x in q ==> NoLater(ByBurn, x, w)
    ensures Best(|q| - 1, all, q - multiset{w})
  {
    forall kept, left | kept in q - multiset{w} && left in all - (q - multiset{w})
      ensures NoLater(ByBurn, kept, left)
    {
      assert left == w || left in all - q;
    }
  }

  /** The messages that are waiting in `before` but not in `after`. */
  ghost function Released(before: map<MessageID, Message>, after: map<MessageID, Message>): set<Message> {
    set id | id in before && id !in after :: before[id]
  }

  class MBScheduler {
    const config: Config
    const peer: PeerID
    const storage: Storage.Storage
    var readyQueue: seq<Message>
    var nonReadyMap: map<MessageID, Message>
    var accessMana: map<PeerID, real>
    ghost var contenders: multiset<Message> // what was queued after the last tick, and all that became ready since

    ghost predicate StorageValid()
      reads storage, storage.footprint
    {
      && storage.Valid() && storage.config == config && storage !in storage.footprint && this !in storage.footprint
      && storage.view.Keys == storage.messageDB.Keys && Buffers.SolidHasParents(storage.messageDB, storage.view)
    }

    /** Queued and waiting messages are stored ones; the queue may be too long by now. */
    ghost predicate Filled()
      reads this, storage, storage.footprint
    {
      && StorageValid() && IsHeap(ByBurn, readyQueue)
      && (forall m :: m in readyQueue ==> m.id in storage.messageDB && storage.messageDB[m.id] == m)
      && (forall id :: id in nonReadyMap ==> id in storage.messageDB && nonReadyMap[id] == storage.messageDB[id])
      && (forall id :: id in nonReadyMap ==> nonReadyMap[id].id == id)
    }

    /** The queue is a heap of the best contenders, as many as fit. */
    ghost predicate Valid()
      reads this, storage, storage.footprint
    {
      Filled() && Best(config.maxBuffer, contenders, multiset(readyQueue))
    }

    constructor (config: Config, peer: PeerID, initialMana: real, storage: Storage.Storage)
      requires storage.Valid() && storage.config == config && storage.messageDB == map[]
      ensures Valid() && readyQueue == [] && nonReadyMap == map[] && contenders == multiset{}
      ensures this.config == config && this.peer == peer && this.storage == storage
      ensures forall p :: 0 <= p < config.nodesCount ==> ManaOf(accessMana, p) == initialMana
    {
      var mana: map<PeerID, real> := map[];
      for id := 0 to config.nodesCount
        invariant forall p :: 0 <= p < id ==> ManaOf(mana, p) == initialMana
      {
        ghost var before := mana;
        mana := mana[id := initialMana];
        assert forall p :: ManaOf(mana, p) == if p == id then initialMana else ManaOf(before, p);
      }
      this.config, this.peer, this.storage := config, peer, storage;
      readyQueue, nonReadyMap, accessMana, contenders := [], map[], mana, multiset{};
    }

    /** The root is a message of maximal burn. */
    function GetMaxManaBurn(): (burn: real)
      requires Valid()
      reads this, storage, storage.footprint
      ensures readyQueue == [] ==> burn == 0.0
      ensures readyQueue != [] ==> exists m :: m in readyQueue && m.manaBurnValue == burn
      ensures forall m :: m in readyQueue ==> m.manaBurnValue <= burn
    {
      RootBurnsMost(readyQueue);
      if |readyQueue| > 0 then readyQueue[0].manaBurnValue else 0.0
    }

    // ----- the queue -----

    /** Removes the last messages until the buffer fits. */
    method BufferManagement()
      requires IsHeap(ByBurn, readyQueue)
      modifies this`readyQueue
      ensures IsHeap(ByBurn, readyQueue)
      ensures Best(config.maxBuffer, multiset(old(readyQueue)), multiset(readyQueue))
      ensures |old(readyQueue)| <= config.maxBuffer ==> readyQueue == old(readyQueue)
    {
      hide IsHeap, Best, Less, NoLater;
      ghost var all := multiset(readyQueue);
      AllFit(|readyQueue|, all);
      while |readyQueue| > config.maxBuffer
        invariant IsHeap(ByBurn, readyQueue) && Best(|readyQueue|, all, multiset(readyQueue))
        invariant readyQueue == old(readyQueue) || config.maxBuffer <= |readyQueue| < |all|
      {
        var tail := Tail(ByBurn, readyQueue);
        RemoveTail(tail, all);
      }
      FewEnough(config.maxBuffer, |readyQueue|, all, multiset(readyQueue));
    }

    method RemoveTail(tail: nat, ghost all: multiset<Message>)
      requires IsHeap(ByBurn, readyQueue) && Best(|readyQueue|, all, multiset(readyQueue)) && tail < |readyQueue|
      requires forall k :: 0 <= k < |readyQueue| ==> NoLater(ByBurn, readyQueue[k], readyQueue[tail])
      modifies this`readyQueue
      ensures IsHeap(ByBurn, readyQueue) && Best(|readyQueue|, all, multiset(readyQueue))
      ensures |readyQueue| == |old(readyQueue)| - 1
    {
      hide IsHeap, Best, Less, NoLater;
      ghost var before := readyQueue;
      var m;
      m, readyQueue := RemoveAt(ByBurn, readyQueue, tail);
      assert m in before;
      LastLeavesBest(all, multiset(before), m);
      assert multiset(readyQueue) == multiset(before) - multiset{m};
    }

    /** Queues a message that became ready, and drops the last one if that is one too many. */
    method PushAndTrim(m: Message)
      requires Valid() && m.id in storage.messageDB && storage.messageDB[m.id] == m
      modifies this`readyQueue, this`contenders
      ensures Valid() && contenders == old(contenders) + multiset{m}
    {
      hide Best, IsHeap, Storage.Storage.Valid, Buffers.SolidHasParents, Less, NoLater;
      ghost var before := readyQueue;
      readyQueue := Push(ByBurn, readyQueue, m);
      ghost var pushed := multiset(readyQueue);
      assert pushed == multiset(before) + multiset{m};
      BufferManagement();
      BestAreSome(config.maxBuffer, pushed, multiset(readyQueue));
      BestOfBest(config.maxBuffer, contenders, multiset(before), m, multiset(readyQueue));
      contenders := contenders + multiset{m};
      AllStored(storage.messageDB, before, m, readyQueue);
    }

    // ----- entering -----

    /** The messages that are ready now. */
    ghost function ReadySet(): set<MessageID>
      reads storage
    {
      ReadyIn(storage.messageDB, storage.view, config.confEligible)
    }

    /** No message waits although it is ready, except for children of `news`. */
    ghost predicate Awake(news: set<MessageID>)
      reads this`nonReadyMap, storage
    {
      AwakeIn(nonReadyMap, storage.messageDB, ReadySet(), news)
    }

    method EnqueueMessage(id: MessageID)
      requires Valid() && id in storage.messageDB && Awake({})
      modifies this`readyQueue, this`nonReadyMap, this`contenders, storage`view, storage.footprint
      ensures Valid() && Awake({}) && Buffers.OnlyReadied(old(storage.view), storage.view)
      ensures ReadySet() == old(ReadySet())
      ensures var m := storage.messageDB[id];
        if id in ReadySet() then contenders == old(contenders) + multiset{m} && nonReadyMap == old(nonReadyMap)
        else contenders == old(contenders) && readyQueue == old(readyQueue) && nonReadyMap == old(nonReadyMap)[id := m]
    {
      hide Best, IsHeap, Storage.Storage.Valid, Dag.WellFormed, Buffers.OnlyReadied, ReadyIn;
      var ready := IsReady(id);
      MarkReady(id);
      if ready {
        PushAndTrim(storage.messageDB[id]);
      } else {
        nonReadyMap := nonReadyMap[id := storage.messageDB[id]];
        QueueFits(config.maxBuffer, contenders, multiset(readyQueue), multiset(readyQueue));
        BufferManagement();
      }
    }

    method IsReady(id: MessageID) returns (ready: bool)
      requires StorageValid() && id in storage.messageDB
      ensures ready == (id in ReadySet()) && storage.messageDB[id].id == id
    {
      Dag.StoredIsWellFormed(storage.messageDB, id);
      hide Dag.WellFormed;
      ready := storage.IsReady(id);
    }

    method MarkReady(id: MessageID)
      requires Valid() && id in storage.messageDB
      modifies storage`view, storage.footprint
      ensures Valid() && Buffers.OnlyReadied(old(storage.view), storage.view) && ReadySet() == old(ReadySet())
      ensures id in storage.view && storage.view[id].ready
    {
      hide Best, IsHeap, Storage.Storage.Valid, Buffers.SolidHasParents;
      storage.SetReady(id);
      ReadiedIsNoMatter(storage.messageDB, old(storage.view), id, config.confEligible);
    }

    /** Marks a message ready, and moves it to the queue if it was waiting. */
    method SetReady(id: MessageID)
      requires Valid() && id in storage.messageDB
      modifies this`readyQueue, this`nonReadyMap, this`contenders, storage`view, storage.footprint
      ensures Valid() && Buffers.OnlyReadied(old(storage.view), storage.view) && ReadySet() == old(ReadySet())
      ensures nonReadyMap == old(nonReadyMap) - {id} && id in storage.view && storage.view[id].ready
      ensures contenders == old(contenders) + multiset(Released(old(nonReadyMap), nonReadyMap))
    {
      hide Best, IsHeap, Storage.Storage.Valid, Buffers.SolidHasParents, Buffers.OnlyReadied, ReadySet, Released;
      MarkReady(id);
      OneReleased(nonReadyMap, id);
      if id in nonReadyMap {
        var m := nonReadyMap[id];
        nonReadyMap := nonReadyMap - {id};
        PushAndTrim(m);
      }
    }

    // ----- scheduling -----

    /** Serves the best message, charges its issuer, and tells its children so twice. */
    method ScheduleMessage() returns (ghost m: Message)
      requires Valid() && Awake({})
      modifies this, storage`view, storage.footprint
      ensures Valid() && Awake({}) && Buffers.OnlyMarked(old(storage.view), storage.view)
      ensures old(readyQueue) == [] ==>
        && readyQueue == [] && nonReadyMap == old(nonReadyMap)
        && accessMana == old(accessMana) && contenders == old(contenders)
      ensures old(readyQueue) != [] ==>
        && m in old(readyQueue)
        && (forall x :: x in old(readyQueue) ==>
             && x.manaBurnValue <= m.manaBurnValue
             && (x.manaBurnValue == m.manaBurnValue ==>
                  m.issuanceTime % 1_000_000_000 <= x.issuanceTime % 1_000_000_000))
        && Buffers.OnlyScheduled(old(storage.view), storage.view, m.id, true)
        && (m.issuer == peer ==> accessMana == old(accessMana))
        && (m.issuer != peer ==> accessMana == old(accessMana)[
             m.issuer := (if m.issuer in old(accessMana) then old(accessMana)[m.issuer] else 0.0) - m.manaBurnValue])
        && contenders == multiset(old(readyQueue)) - multiset{m} + multiset(Released(old(nonReadyMap), nonReadyMap))
        && nonReadyMap == old(nonReadyMap) - ReadySet()
    {
      hide Best, IsHeap, Storage.Storage.Valid, Buffers.SolidHasParents, Buffers.OnlyReadied, Buffers.OnlyMarked,
        Buffers.OnlyScheduled, ReadyIn, Released, ChildrenIn, AwakeIn, Less, NoLater;
      m := *;
      Buffers.NothingMarked(storage.view);
      if readyQueue != [] {
        var next := Serve();
        m := next;
        ServedIsBest(old(readyQueue), m);
        ChargedIsPaid(old(accessMana), peer, m);
        ghost var view := storage.view;
        TellChildren(next.id);
        Buffers.NothingReadied(storage.view);
        Buffers.MarkedAndTold(old(storage.view), m.id, view, storage.view, storage.view);
      }
    }

    /** Readies the children of a scheduled message, directly and as a handler of the event. */
    method TellChildren(id: MessageID)
      requires Valid() && Awake({id})
      modifies this`readyQueue, this`nonReadyMap, this`contenders, storage`view, storage.footprint
      ensures Valid() && Awake({}) && Buffers.OnlyReadied(old(storage.view), storage.view)
      ensures ReadySet() == old(ReadySet()) && nonReadyMap == old(nonReadyMap) - ReadySet()
      ensures contenders == old(contenders) + multiset(Released(old(nonReadyMap), nonReadyMap))
    {
      hide Best, IsHeap, Storage.Storage.Valid, Buffers.SolidHasParents, Buffers.OnlyReadied, ReadyIn, Released,
        ChildrenIn, AwakeIn;
      ghost var view, waiting := storage.view, nonReadyMap;
      UpdateChildrenReady(id);
      ghost var view', waiting' := storage.view, nonReadyMap;
      ChildrenWereAll(waiting, storage.messageDB, ReadySet(), id, waiting');
      UpdateChildrenReady(id);
      Buffers.ReadiedTwice(view, view', storage.view);
      ReleasedAddUp(waiting, waiting', nonReadyMap);
      ReleasedOnce(waiting, ChildrenIn(storage.messageDB, id), ReadySet());
    }

    /** Handles the confirmation of a message. */
    method MessageConfirmed(id: MessageID)
      requires Valid() && id in storage.messageDB && Awake(if config.confEligible then {id} else {})
      modifies this`readyQueue, this`nonReadyMap, this`contenders
      modifies storage`view, storage.footprint, storage`acceptedSlotDB, storage`ATT
      ensures Valid() && Awake({}) && Buffers.OnlyReadied(old(storage.view), storage.view)
      ensures ReadySet() == old(ReadySet())
      ensures nonReadyMap == if config.confEligible then old(nonReadyMap) - ReadySet() else old(nonReadyMap)
      ensures contenders == old(contenders) + multiset(Released(old(nonReadyMap), nonReadyMap))
      ensures var m := storage.messageDB[id];
        var slot := Storage.SlotIndex(config, storage.genesisTime, m.issuanceTime);
        && storage.ATT == (if m.issuanceTime > old(storage.ATT) then m.issuanceTime else old(storage.ATT))
        && storage.acceptedSlotDB == old(storage.acceptedSlotDB)[
             slot := Storage.InSlot(old(storage.acceptedSlotDB), slot) + {id}]
    {
      hide Best, IsHeap, Storage.Storage.Valid, Buffers.SolidHasParents, Buffers.OnlyReadied, ReadyIn, Released,
        ChildrenIn, AwakeIn, Less, NoLater;
      StoredUnderIdentity(id);
      NoneReleased(nonReadyMap, storage.view, {}, ReadySet());
      if config.confEligible {
        UpdateChildrenReady(id);
        ChildrenWereAll(old(nonReadyMap), storage.messageDB, ReadySet(), id, nonReadyMap);
      }
      storage.AddToAcceptedSlot(storage.messageDB[id]);
    }

    /** Takes the best message out, charges its issuer unless that is the own peer, and marks it scheduled. */
    method Serve() returns (m: Message)
      requires Valid() && readyQueue != []
      modifies this, storage`view, storage.footprint
      ensures Valid() && m in old(readyQueue) && (forall x :: x in old(readyQueue) ==> NoLater(ByBurn, m, x))
      ensures m.id in storage.messageDB && accessMana == Charged(old(accessMana), peer, m)
      ensures storage.view == old(storage.view)[m.id := old(storage.view)[m.id].(scheduled := true)]
      ensures contenders == multiset(old(readyQueue)) - multiset{m} && nonReadyMap == old(nonReadyMap)
      ensures old(Awake({})) ==> Awake({m.id})
    {
      hide Best, IsHeap, Storage.Storage.Valid, Buffers.SolidHasParents, Less, NoLater, Dag.WellFormed,
        ReadyIn, AwakeIn;
      m := Pop();
      if m.issuer != peer {
        DecreaseNodeAccessMana(m.issuer, m.manaBurnValue);
      }
      SetScheduleTime(m.id);
    }

    method SetScheduleTime(id: MessageID)
      requires Valid() && id in storage.messageDB
      modifies storage`view, storage.footprint
      ensures Valid() && storage.view == old(storage.view)[id := old(storage.view)[id].(scheduled := true)]
      ensures old(Awake({})) ==> Awake({id})
    {
      hide Best, IsHeap, Storage.Storage.Valid, Buffers.SolidHasParents, ReadyIn, AwakeIn;
      storage.SetScheduled(id);
      ScheduledIsNoMatter(storage.messageDB, old(storage.view), id);
      Buffers.ConfirmedOrScheduled(old(storage.view), id, config.confEligible);
      OneMoreEligible(nonReadyMap, storage.messageDB, old(storage.view), storage.view, config.confEligible, id);
    }

    method Pop() returns (m: Message)
      requires Valid() && readyQueue != []
      modifies this`readyQueue, this`contenders
      ensures Valid() && m in old(readyQueue) && (forall x :: x in old(readyQueue) ==> NoLater(ByBurn, m, x))
      ensures m.id in storage.messageDB && contenders == multiset(old(readyQueue)) - multiset{m}
    {
      hide Best, IsHeap, Storage.Storage.Valid, Buffers.SolidHasParents, Less, NoLater, Dag.WellFormed;
      ghost var before := readyQueue;
      m, readyQueue := Heaps.Pop(ByBurn, readyQueue);
      assert m in before;
      QueueFits(config.maxBuffer, contenders, multiset(before), multiset(readyQueue));
      contenders := multiset(readyQueue);
      AllFit(config.maxBuffer, contenders);
      AllStored(storage.messageDB, before, m, readyQueue);
    }

    method DecreaseNodeAccessMana(nodeID: PeerID, manaIncrement: real)
      modifies this`accessMana
      ensures accessMana == old(accessMana)[nodeID := ManaOf(old(accessMana), nodeID) - manaIncrement]
    {
      accessMana := accessMana[nodeID := ManaOf(accessMana, nodeID) - manaIncrement];
    }

    /** Readies the children of a message that became eligible. */
    method UpdateChildrenReady(id: MessageID)
      requires Valid()
      modifies this`readyQueue, this`nonReadyMap, this`contenders, storage`view, storage.footprint
      ensures Valid() && Buffers.OnlyReadied(old(storage.view), storage.view) && ReadySet() == old(ReadySet())
      ensures nonReadyMap == old(nonReadyMap) - ChildrenIn(storage.messageDB, id) * ReadySet()
      ensures contenders == old(contenders) + multiset(Released(old(nonReadyMap), nonReadyMap))
    {
      hide Best, IsHeap, Storage.Storage.Valid, Buffers.SolidHasParents, Buffers.OnlyReadied, ReadySet, Released,
        ChildrenIn, Storage.ChildrenIndexed, Storage.ChildrenOf;
      ghost var strong := Storage.ChildrenOf(storage.strongChildrenDB, id);
      ghost var weak := Storage.ChildrenOf(storage.weakChildrenDB, id);
      ChildTables();
      AllChildren(storage.messageDB, storage.strongChildrenDB, storage.weakChildrenDB, id);
      ReadyChildren(Storage.ChildrenOf(storage.strongChildrenDB, id));
      ghost var waiting, view := nonReadyMap, storage.view;
      ReadyChildren(Storage.ChildrenOf(storage.weakChildrenDB, id));
      Buffers.ReadiedTwice(old(storage.view), view, storage.view);
      ReleasedAddUp(old(nonReadyMap), waiting, nonReadyMap);
      NoneLeft(old(nonReadyMap), nonReadyMap, strong, weak, ReadySet());
    }

    lemma StoredUnderIdentity(id: MessageID)
      requires StorageValid() && id in storage.messageDB
      ensures storage.messageDB[id].id == id
    {
      hide Storage.SlotsIndexed, Storage.ChildrenIndexed, Buffers.SolidHasParents;
    }

    lemma ChildTables()
      requires StorageValid()
      ensures Storage.ChildrenIndexed(storage.messageDB, storage.strongChildrenDB, storage.weakChildrenDB)
    {
      hide Storage.SlotsIndexed, Dag.WellFormed, Buffers.SolidHasParents, Storage.ChildrenIndexed;
    }

    method ReadyChildren(children: set<MessageID>)
      requires Valid() && children <= storage.messageDB.Keys
      modifies this`readyQueue, this`nonReadyMap, this`contenders, storage`view, storage.footprint
      ensures Valid() && Buffers.OnlyReadied(old(storage.view), storage.view) && ReadySet() == old(ReadySet())
      ensures nonReadyMap == old(nonReadyMap) - children * ReadySet()
      ensures contenders == old(contenders) + multiset(Released(old(nonReadyMap), nonReadyMap))
    {
      hide Best, IsHeap, Storage.Storage.Valid, Buffers.SolidHasParents, Buffers.OnlyReadied, ReadySet, Released;
      NoneReleased(nonReadyMap, storage.view, children, ReadySet());
      var todo := children;
      while todo != {}
        invariant todo <= children && Valid()
        invariant Buffers.OnlyReadied(old(storage.view), storage.view) && ReadySet() == old(ReadySet())
        invariant nonReadyMap == old(nonReadyMap) - (children - todo) * ReadySet()
        invariant contenders == old(contenders) + multiset(Released(old(nonReadyMap), nonReadyMap))
      {
        Inhabited(todo);
        var child :| child in todo;
        ghost var waiting, view := nonReadyMap, storage.view;
        ReadyIfPossible(child);
        Buffers.ReadiedTwice(old(storage.view), view, storage.view);
        MoreReleased(old(nonReadyMap), waiting, nonReadyMap, children, todo, child, ReadySet());
        todo := todo - {child};
      }
    }

    method ReadyIfPossible(child: MessageID)
      requires Valid() && child in storage.messageDB
      modifies this`readyQueue, this`nonReadyMap, this`contenders, storage`view, storage.footprint
      ensures Valid() && Buffers.OnlyReadied(old(storage.view), storage.view) && ReadySet() == old(ReadySet())
      ensures nonReadyMap == old(nonReadyMap) - {child} * ReadySet()
      ensures contenders == old(contenders) + multiset(Released(old(nonReadyMap), nonReadyMap))
    {
      hide Best, IsHeap, Storage.Storage.Valid, Buffers.SolidHasParents, Buffers.OnlyReadied, ReadySet, Released;
      NoneReleased(nonReadyMap, storage.view, {child}, ReadySet());
      var ready := IsReady(child);
      if ready {
        SetReady(child);
        assert {child} * ReadySet() == {child};
      } else {
        assert {child} * ReadySet() == {};
      }
    }
  }

  /** The access mana after a message was served: only the issuers that are not the own peer pay for it. */
  function Charged(mana: map<PeerID, real>, peer: PeerID, m: Message): map<PeerID, real> {
    if m.issuer == peer then mana else mana[m.issuer := ManaOf(mana, m.issuer) - m.manaBurnValue]
  }

  lemma ChargedIsPaid(mana: map<PeerID, real>, peer: PeerID, m: Message)
    ensures m.issuer == peer ==> Charged(mana, peer, m) == mana
    ensures m.issuer != peer ==>
      Charged(mana, peer, m) == mana[m.issuer := (if m.issuer in mana then mana[m.issuer] else 0.0) - m.manaBurnValue]
  {
  }

  lemma ServedIsBest(q: seq<Message>, m: Message)
    requires forall x :: x in q ==> NoLater(ByBurn, m, x)
    ensures forall x :: x in q ==>
      && x.manaBurnValue <= m.manaBurnValue
      && (x.manaBurnValue == m.manaBurnValue ==> m.issuanceTime % 1_000_000_000 <= x.issuanceTime % 1_000_000_000)
  {
  }

  function ManaOf(mana: map<PeerID, real>, p: PeerID): real {
    if p in mana then mana[p] else 0.0
  }

  /** Whoever waits although it is ready is a child of `news`. */
  ghost predicate AwakeIn(
    waiting: map<MessageID, Message>, db: Dag.Ledger, ready: set<MessageID>, news: set<MessageID>)
  {
    forall id :: id in waiting && id in ready ==> exists p :: p in news && id in ChildrenIn(db, p)
  }

  /** When one message becomes eligible, only its children can have become ready. */
  lemma OneMoreEligible(
    waiting: map<MessageID, Message>, db: Dag.Ledger, view: Buffers.View, view': Buffers.View, confEligible: bool,
    p: MessageID)
    requires Buffers.OnlyOneEligible(view, view', confEligible, p)
    ensures AwakeIn(waiting, db, ReadyIn(db, view, confEligible), {})
       ==> AwakeIn(waiting, db, ReadyIn(db, view', confEligible), {p})
  {
    forall id | id in ReadyIn(db, view', confEligible) && id !in ChildrenIn(db, p)
      ensures id in ReadyIn(db, view, confEligible)
    {
    }
  }

  /** Once the ready children of the message have left, nobody waits who is ready. */
  lemma ChildrenWereAll(
    waiting: map<MessageID, Message>, db: Dag.Ledger, ready: set<MessageID>, p: MessageID,
    left: map<MessageID, Message>)
    requires AwakeIn(waiting, db, ready, {p}) && left == waiting - ChildrenIn(db, p) * ready
    ensures AwakeIn(left, db, ready, {}) && left == waiting - ready
  {
    forall id | id in waiting && id in ready
      ensures id in ChildrenIn(db, p)
    {
    }
  }

  lemma ReleasedOnce(waiting: map<MessageID, Message>, children: set<MessageID>, ready: set<MessageID>)
    ensures waiting - ready - children * ready == waiting - ready
  {
  }

  lemma NoneLeft(
    before: map<MessageID, Message>, after: map<MessageID, Message>,
    strong: set<MessageID>, weak: set<MessageID>, ready: set<MessageID>)
    requires after == before - strong * ready - weak * ready
    ensures after == before - (strong + weak) * ready
  {
  }

  lemma ScheduledIsNoMatter(db: Dag.Ledger, view: Buffers.View, id: MessageID)
    requires id in view && Buffers.SolidHasParents(db, view)
    ensures var view' := view[id := view[id].(scheduled := true)];
      Buffers.SolidHasParents(db, view') && view'.Keys == view.Keys
  {
    var view' := view[id := view[id].(scheduled := true)];
    assert view'.Keys == view.Keys;
    Buffers.SolidityKept(db, view, view');
  }

  lemma QueueFits(k: nat, all: multiset<Message>, q: multiset<Message>, rest: multiset<Message>)
    requires Best(k, all, q) && rest <= q
    ensures |rest| <= k
  {
    assert q == rest + (q - rest);
  }

  /** Solid messages whose parents are eligible. */
  ghost function ReadyIn(db: Dag.Ledger, view: Buffers.View, confEligible: bool): set<MessageID> {
    set id | id in db && id in view && view[id].solid && Storage.ParentsEligible(db, view, confEligible, id)
  }

  ghost function ChildrenIn(db: Dag.Ledger, id: MessageID): set<MessageID> {
    set c | c in db && id in db[c].Parents()
  }

  lemma AllChildren(db: Dag.Ledger, strong: Storage.Children, weak: Storage.Children, id: MessageID)
    requires Storage.ChildrenIndexed(db, strong, weak)
    ensures Storage.ChildrenOf(strong, id) + Storage.ChildrenOf(weak, id) == ChildrenIn(db, id)
    ensures Storage.ChildrenOf(strong, id) + Storage.ChildrenOf(weak, id) <= db.Keys
  {
    Storage.ChildrenAreStored(db, strong, weak, id);
    forall c
      ensures c in Storage.ChildrenOf(strong, id) <==> c in db && id in db[c].strongParents
      ensures c in Storage.ChildrenOf(weak, id) <==> c in db && id in db[c].weakParents
    {
    }
  }

  lemma ReadiedIsNoMatter(db: Dag.Ledger, view: Buffers.View, id: MessageID, confEligible: bool)
    requires id in view && Buffers.SolidHasParents(db, view)
    ensures var view' := view[id := view[id].(ready := true)];
      && Buffers.OnlyReadied(view, view') && Buffers.SolidHasParents(db, view')
      && ReadyIn(db, view', confEligible) == ReadyIn(db, view, confEligible)
  {
    var view' := view[id := view[id].(ready := true)];
    forall x | x in db
      ensures Storage.ParentsEligible(db, view, confEligible, x)
         <==> Storage.ParentsEligible(db, view', confEligible, x)
    {
    }
    assert forall x :: x in ReadyIn(db, view', confEligible) <==> x in ReadyIn(db, view, confEligible);
  }

  lemma OneReleased(waiting: map<MessageID, Message>, id: MessageID)
    ensures Released(waiting, waiting) == {}
    ensures id !in waiting ==> waiting - {id} == waiting
    ensures id in waiting ==> Released(waiting, waiting - {id}) == {waiting[id]}
  {
  }

  lemma NoneReleased(
    waiting: map<MessageID, Message>, view: Buffers.View, children: set<MessageID>, ready: set<MessageID>)
    ensures Released(waiting, waiting) == {}
    ensures waiting - (children - children) * ready == waiting && waiting - {} == waiting
    ensures Buffers.OnlyReadied(view, view)
  {
  }

  /** What is released in two steps adds up, because every message waits under its own identity. */
  lemma ReleasedAddUp(a: map<MessageID, Message>, b: map<MessageID, Message>, c: map<MessageID, Message>)
    requires forall id :: id in a ==> a[id].id == id
    requires (forall id :: id in b ==> id in a && b[id] == a[id])
    requires (forall id :: id in c ==> id in b && c[id] == b[id])
    ensures multiset(Released(a, b)) + multiset(Released(b, c)) == multiset(Released(a, c))
  {
    assert Released(a, b) + Released(b, c) == Released(a, c);
    assert Released(a, b) !! Released(b, c);
  }

  lemma MoreReleased(
    a: map<MessageID, Message>, b: map<MessageID, Message>, c: map<MessageID, Message>,
    children: set<MessageID>, todo: set<MessageID>, child: MessageID, ready: set<MessageID>)
    requires (forall id :: id in a ==> a[id].id == id) && todo <= children && child in todo
    requires b == a - (children - todo) * ready && c == b - {child} * ready
    ensures multiset(Released(a, b)) + multiset(Released(b, c)) == multiset(Released(a, c))
    ensures c == a - (children - (todo - {child})) * ready
  {
    ReleasedAddUp(a, b, c);
  }

  lemma RootBurnsMost(q: seq<Message>)
    requires IsHeap(ByBurn, q)
    ensures forall m :: m in q ==> m.manaBurnValue <= q[0].manaBurnValue
    ensures q != [] ==> q[0] in q
  {
    forall m | m in q
      ensures m.manaBurnValue <= q[0].manaBurnValue
    {
      var i :| 0 <= i < |q| && q[i] == m;
      RootComesFirst(ByBurn, q, i);
    }
  }

  lemma AllStored(db: Dag.Ledger, before: seq<Message>, m: Message, after: seq<Message>)
    requires forall x :: x in before ==> x.id in db && db[x.id] == x
    requires m.id in db && db[m.id] == m && forall x :: x in multiset(after) ==> x in multiset(before) + multiset{m}
    ensures forall x :: x in after ==> x.id in db && db[x.id] == x
  {
    forall x | x in after
      ensures x.id in db && db[x.id] == x
    {
      assert x in multiset(after);
      assert x == m || x in multiset(before);
    }
  }

  lemma BestAreSome(k: nat, all: multiset<Message>, q: multiset<Message>)
    requires Best(k, all, q)
    ensures forall m :: m in q ==> m in all
  {
  }
}
