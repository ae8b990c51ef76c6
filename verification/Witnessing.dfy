/**
 Which validators witness a message, what it weighs by that, and when it is confirmed
 (multiverse/approvalweight_manager.go), as functions of the stored graph.
 */
module Witnessing {
  import opened Messages
  import opened Metadata
  import opened PeerWeights
  import Dag

  type View = map<MessageID, Record>

  /** A validation block by peer `i` among `s` has the message in its past cone. */
  ghost predicate Covered(db: Dag.Ledger, s: set<MessageID>, i: PeerID, m: MessageID) {
    exists v :: v in s && v in db && db[v].validation && db[v].issuer == i && Dag.InCone(db, m, v)
  }

  ghost predicate Sized(n: nat, view: View) {
    forall m :: m in view ==> |view[m].weightSlice| == SliceLength(n)
  }

  ghost function Bits(n: nat, view: View, m: MessageID): set<PeerID>
    requires Sized(n, view) && m in view
  {
    Witnesses(view[m].weightSlice, n)
  }

  /** The bitmaps record exactly the witnesses among the messages of `s`. */
  ghost predicate WitnessesExact(db: Dag.Ledger, n: nat, view: View, s: set<MessageID>) {
    && Sized(n, view) && db.Keys == view.Keys
    && forall m, i :: m in db ==> (i in Bits(n, view, m) <==> 0 <= i < n && Covered(db, s, i, m))
  }

  /** The weight of a message is the summed weight of its witnesses. */
  ghost predicate Weighed(w: Weights, n: nat, r: Record)
    requires |r.weightSlice| == SliceLength(n)
  {
    r.weight == Sum(w, Witnesses(r.weightSlice, n), n)
  }

  /**
   A witnessed message that reached the threshold is confirmed or orphaned; no other is confirmed, and none is both.
   */
  ghost predicate Judged(threshold: real, n: nat, r: Record)
    requires |r.weightSlice| == SliceLength(n)
  {
    && !(r.confirmed && r.orphaned)
    && (r.confirmed ==> r.weight as real >= threshold && Witnesses(r.weightSlice, n) != {})
    && (Witnesses(r.weightSlice, n) != {} && r.weight as real >= threshold ==> r.confirmed || r.orphaned)
  }

  ghost predicate InOrder(w: Weights, n: nat, threshold: real, view: View) {
    Sized(n, view) && forall m :: m in view ==> Weighed(w, n, view[m]) && Judged(threshold, n, view[m])
  }

  /** All records are in order, except that `y` may have reached the threshold just now. */
  ghost predicate JudgedBut(w: Weights, n: nat, threshold: real, view: View, y: MessageID) {
    && Sized(n, view)
    && (forall m :: m in view ==> Weighed(w, n, view[m]) && (m != y ==> Judged(threshold, n, view[m])))
    && (y in view ==>
         && !(view[y].confirmed && view[y].orphaned) && Witnesses(view[y].weightSlice, n) != {}
         && (view[y].confirmed ==> view[y].weight as real >= threshold))
  }

  /** Nothing is judged but perhaps `y`: reaching the threshold, it is orphaned if late, and confirmed otherwise. */
  ghost predicate OneJudged(view: View, view': View, y: MessageID, reached: bool, late: bool) {
    && view.Keys == view'.Keys && y in view
    && (forall m :: m in view && m != y ==>
         view'[m].confirmed == view[m].confirmed && view'[m].orphaned == view[m].orphaned)
    && var due := reached && !view[y].confirmed && !view[y].orphaned;
       && view'[y].confirmed == (view[y].confirmed || (due && !late))
       && view'[y].orphaned == (view[y].orphaned || (due && late))
  }

  /** Judging touches confirmations and the marks of being ready. */
  ghost predicate OnlyJudged(view: View, view': View) {
    && view.Keys == view'.Keys
    && forall m :: m in view ==>
         && view'[m]
              == view[m].(ready := view'[m].ready, confirmed := view'[m].confirmed, orphaned := view'[m].orphaned)
         && (view[m].confirmed ==> view'[m].confirmed) && (view[m].orphaned ==> view'[m].orphaned)
  }

  /** No message weighs more than all peers together. */
  lemma {:induction false} WeightWithinTotal(w: Weights, n: nat, r: Record)
    requires |r.weightSlice| == SliceLength(n) && Weighed(w, n, r)
    ensures r.weight <= Sum(w, w.Keys, n)
  {
    var s := Witnesses(r.weightSlice, n);
    SumUnion(w, s - w.Keys, s * w.Keys, n);
    assert s == (s - w.Keys) + (s * w.Keys);
    SumOfNone(w, (s - w.Keys) * (s * w.Keys), n);
    SumOfNone(w, s - w.Keys, n);
    SumMonotone(w, s * w.Keys, w.Keys, n);
  }

  /** Who witnesses a message witnesses its past cone. */
  lemma {:induction false} WitnessesOfAncestors(
    db: Dag.Ledger, n: nat, view: View, s: set<MessageID>, a: MessageID, m: MessageID)
    requires WitnessesExact(db, n, view, s) && Dag.InCone(db, a, m) && a in db && m in db
    ensures Bits(n, view, m) <= Bits(n, view, a)
  {
    forall i | i in Bits(n, view, m)
      ensures i in Bits(n, view, a)
    {
      var v :| v in s && v in db && db[v].validation && db[v].issuer == i && Dag.InCone(db, m, v);
      Dag.ConeTransitive(db, a, m, v);
      assert Covered(db, s, i, a);
    }
  }

  lemma {:induction false} ConeIsStored(db: Dag.Ledger, a: MessageID, v: MessageID)
    requires Dag.InCone(db, a, v)
    ensures a in db
    decreases if v < 0 then 0 else v
  {
    if a != v {
      var p :| p in db[v].Parents() && 0 < p < v && Dag.InCone(db, a, p);
      ConeIsStored(db, a, p);
    }
  }

  /** Confirmation closure, whatever the threshold: every ancestor of a confirmed message is confirmed or orphaned. */
  lemma {:induction false} ConfirmationClosure(
    db: Dag.Ledger, w: Weights, n: nat, threshold: real, view: View, s: set<MessageID>, a: MessageID, m: MessageID)
    requires WitnessesExact(db, n, view, s) && InOrder(w, n, threshold, view)
    requires m in db && view[m].confirmed && Dag.InCone(db, a, m)
    ensures a in view && (view[a].confirmed || view[a].orphaned)
  {
    ConeIsStored(db, a, m);
    assert Weighed(w, n, view[m]) && Judged(threshold, n, view[m]);
    assert Weighed(w, n, view[a]) && Judged(threshold, n, view[a]);
    WitnessesOfAncestors(db, n, view, s, a, m);
    SumMonotone(w, Bits(n, view, m), Bits(n, view, a), n);
  }

  /** The records after `i` became a witness of `y`. */
  function WithWitness(view: View, y: MessageID, i: nat, weight: nat): View
    requires y in view && i / 8 < |view[y].weightSlice|
  {
    view[y := view[y].(weightSlice := SetBit(view[y].weightSlice, i), weight := view[y].weight + weight)]
  }

  /** Bits and weights stay in step, and only the marked message may have to be judged. */
  lemma WitnessCounts(w: Weights, n: nat, threshold: real, view: View, y: MessageID, i: nat)
    requires InOrder(w, n, threshold, view) && y in view && i < n && i !in Bits(n, view, y)
    ensures var view' := WithWitness(view, y, i, WeightOf(w, i));
      && JudgedBut(w, n, threshold, view', y)
      && Bits(n, view', y) == Bits(n, view, y) + {i}
      && forall m :: m in view && m != y ==> Bits(n, view', m) == Bits(n, view, m)
  {
    SetBitAddsWitness(view[y].weightSlice, i, n);
    SumInsert(w, Bits(n, view, y), i, n);
    assert Weighed(w, n, view[y]) && Judged(threshold, n, view[y]);
  }

  // ----- the walk -----

  /** The records before and after differ in the bit of `i` for the messages of `done`. */
  ghost predicate BitAdded(n: nat, view0: View, view: View, i: PeerID, done: set<MessageID>) {
    && Sized(n, view0) && Sized(n, view) && view0.Keys == view.Keys
    && forall m :: m in view0 ==> Bits(n, view, m) == Bits(n, view0, m) + if m in done then {i} else {}
  }

  /** The walk from `x` for peer `i`: what was seen of the past cone, and what still waits to be visited. */
  ghost predicate Walking(
    db: Dag.Ledger, n: nat, view0: View, view: View, i: PeerID, x: MessageID,
    seen: set<MessageID>, pending: set<MessageID>, done: set<MessageID>)
  {
    && BitAdded(n, view0, view, i, done)
    && (forall m :: m in done ==> Dag.InCone(db, m, x))
    && x in seen && pending <= seen
    && (forall y :: y in seen && y != GENESIS ==> Dag.InCone(db, y, x) && y in view)
    && (forall y :: y in seen && y !in pending && y != GENESIS ==> i in Bits(n, view, y))
    && (forall m :: m in done && m in db ==> Dag.ParentsIn(db, m, seen))
  }

  lemma WalkStarts(db: Dag.Ledger, n: nat, view: View, s: set<MessageID>, i: PeerID, x: MessageID)
    requires WitnessesExact(db, n, view, s) && x in db
    ensures Walking(db, n, view, view, i, x, {x}, {x}, {})
  {
    assert Dag.InCone(db, x, x);
  }

  lemma NothingMarked(
    db: Dag.Ledger, n: nat, view0: View, view: View, view': View, i: PeerID, x: MessageID,
    seen: set<MessageID>, pending: set<MessageID>, done: set<MessageID>)
    requires Walking(db, n, view0, view, i, x, seen, pending, done) && BitAdded(n, view, view', i, {})
    ensures Walking(db, n, view0, view', i, x, seen, pending, done)
  {
    hide Dag.InCone, Dag.ParentsIn;
    assert forall m :: m in view ==> Bits(n, view', m) == Bits(n, view, m);
  }

  /** A visited message that has the bit already: nothing below it needs a visit. */
  lemma WalkSkips(
    db: Dag.Ledger, n: nat, view0: View, view: View, i: PeerID, x: MessageID,
    seen: set<MessageID>, pending: set<MessageID>, done: set<MessageID>, y: MessageID)
    requires Walking(db, n, view0, view, i, x, seen, pending, done)
    requires y != GENESIS ==> y in view && i in Bits(n, view, y)
    ensures Walking(db, n, view0, view, i, x, seen, pending - {y}, done)
  {
  }

  lemma {:induction false} ParentsOfCone(db: Dag.Ledger, a: MessageID, v: MessageID, p: MessageID)
    requires Dag.WellFormed(db) && Dag.InCone(db, a, v) && a in db && p in db[a].Parents() && p != GENESIS && p in db
    ensures Dag.InCone(db, p, v)
    decreases if v < 0 then 0 else v
  {
    assert Dag.InCone(db, p, p);
    if a != v {
      var q :| q in db[v].Parents() && 0 < q < v && Dag.InCone(db, a, q);
      ParentsOfCone(db, a, q, p);
    }
  }

  /** A visited message without the bit gets it, and its parents are seen. */
  lemma WalkMarks(
    db: Dag.Ledger, n: nat, view0: View, view: View, view': View, i: PeerID, x: MessageID,
    seen: set<MessageID>, pending: set<MessageID>, done: set<MessageID>, y: MessageID)
    requires Dag.WellFormed(db) && db.Keys == view.Keys
    requires Walking(db, n, view0, view, i, x, seen, pending, done)
    requires y in pending && y != GENESIS && y in db && Dag.ParentsIn(db, y, db.Keys)
    requires Sized(n, view') && view'.Keys == view.Keys && y in view
    requires Bits(n, view', y) == Bits(n, view, y) + {i}
    requires forall m :: m in view && m != y ==> Bits(n, view', m) == Bits(n, view, m)
    ensures Walking(db, n, view0, view', i, x,
                    seen + db[y].Parents(), pending - {y} + (db[y].Parents() - seen), done + {y})
  {
    hide Dag.InCone, Dag.WellFormed, Bits;
    var seen' := seen + db[y].Parents();
    forall p | p in db[y].Parents() && p != GENESIS
      ensures Dag.InCone(db, p, x) && p in view
    {
      ParentsOfCone(db, y, x, p);
    }
    forall m | m in view0
      ensures Bits(n, view', m) == Bits(n, view0, m) + if m in done + {y} then {i} else {}
    {
    }
    forall m | m in done + {y} && m in db
      ensures Dag.ParentsIn(db, m, seen')
    {
      if m != y {
        assert Dag.ParentsIn(db, m, seen);
      }
    }
  }

  /** Everything the walk comes across is stored, with its parents. */
  lemma {:induction false} WalkStaysInside(
    db: Dag.Ledger, n: nat, view0: View, view: View, i: PeerID, x: MessageID,
    seen: set<MessageID>, pending: set<MessageID>, done: set<MessageID>, s: set<MessageID>, y: MessageID)
    requires Walking(db, n, view0, view, i, x, seen, pending, done) && Dag.Closed(db, s) && x in s
    requires y in seen && y != GENESIS
    ensures y in db && Dag.ParentsIn(db, y, db.Keys) && Dag.InCone(db, y, x)
  {
    Dag.ConeStaysClosed(db, s, y, x);
    assert Dag.ParentsIn(db, y, s);
  }

  /** One visit, whether it found the bit set or not. */
  lemma WalkSteps(
    db: Dag.Ledger, n: nat, view0: View, view: View, view': View, i: PeerID, x: MessageID,
    seen: set<MessageID>, pending: set<MessageID>, done: set<MessageID>, y: MessageID, marked: bool)
    requires Dag.WellFormed(db) && db.Keys == view.Keys
    requires Walking(db, n, view0, view, i, x, seen, pending, done)
    requires y in pending && y != GENESIS && y in db && Dag.ParentsIn(db, y, db.Keys)
    requires marked == (i !in Bits(n, view, y)) && BitAdded(n, view, view', i, if marked then {y} else {})
    ensures var parents := if marked then db[y].Parents() else {};
      Walking(db, n, view0, view', i, x, seen + parents, pending - {y} + (parents - seen),
              done + if marked then {y} else {})
  {
    hide Walking, Dag.WellFormed, Dag.ParentsIn;
    if marked {
      WalkMarks(db, n, view0, view, view', i, x, seen, pending, done, y);
    } else {
      NothingMarked(db, n, view0, view, view', i, x, seen, pending, done);
      WalkSkips(db, n, view0, view', i, x, seen, pending, done, y);
      assert seen + {} == seen && done + {} == done && pending - {y} + ({} - seen) == pending - {y};
    }
  }

  /** When nothing is pending, the whole past cone has the bit: stopping at set bits lost nothing. */
  lemma WalkEnds(
    db: Dag.Ledger, n: nat, view0: View, view: View, s: set<MessageID>, x: MessageID,
    seen: set<MessageID>, done: set<MessageID>)
    requires Dag.WellFormed(db) && Dag.Closed(db, s + {x}) && x in db && db[x].validation && 0 <= db[x].issuer < n
    requires WitnessesExact(db, n, view0, s)
    requires Walking(db, n, view0, view, db[x].issuer, x, seen, {}, done)
    ensures WitnessesExact(db, n, view, s + {x})
  {
    forall m, j | m in db
      ensures j in Bits(n, view, m) <==> 0 <= j < n && Covered(db, s + {x}, j, m)
    {
      OneMoreValidation(db, s, x, j, m);
      if j == db[x].issuer {
        WholeConeIsMarked(db, n, view0, view, s, x, seen, done, m);
      } else {
        assert j in Bits(n, view, m) <==> j in Bits(n, view0, m);
      }
    }
  }

  lemma {:induction false} WholeConeIsMarked(
    db: Dag.Ledger, n: nat, view0: View, view: View, s: set<MessageID>, x: MessageID,
    seen: set<MessageID>, done: set<MessageID>, m: MessageID)
    requires Dag.WellFormed(db) && Dag.Closed(db, s + {x}) && x in db && db[x].validation && 0 <= db[x].issuer < n
    requires WitnessesExact(db, n, view0, s) && m in db
    requires Walking(db, n, view0, view, db[x].issuer, x, seen, {}, done)
    ensures var i := db[x].issuer; i in Bits(n, view, m) <==> Covered(db, s, i, m) || Dag.InCone(db, m, x)
  {
    var i := db[x].issuer;
    var marked := set y | y in db && i in Bits(n, view, y);
    forall y | y in marked
      ensures Dag.ParentsIn(db, y, marked)
    {
      ParentsAreMarked(db, n, view0, view, s, x, seen, done, y, marked);
    }
    assert x in marked;
    if Dag.InCone(db, m, x) {
      Dag.ConeStaysClosed(db, marked, m, x);
    }
  }

  lemma {:induction false} OneMoreValidation(db: Dag.Ledger, s: set<MessageID>, x: MessageID, j: PeerID, m: MessageID)
    requires x in db && db[x].validation
    ensures Covered(db, s + {x}, j, m) <==> Covered(db, s, j, m) || (j == db[x].issuer && Dag.InCone(db, m, x))
  {
  }

  lemma ParentsAreMarked(
    db: Dag.Ledger, n: nat, view0: View, view: View, s: set<MessageID>, x: MessageID,
    seen: set<MessageID>, done: set<MessageID>, m: MessageID, marked: set<MessageID>)
    requires Dag.WellFormed(db) && Dag.Closed(db, s + {x}) && x in db && 0 <= db[x].issuer < n
    requires WitnessesExact(db, n, view0, s)
    requires Walking(db, n, view0, view, db[x].issuer, x, seen, {}, done)
    requires marked == (set y | y in db && db[x].issuer in Bits(n, view, y)) && m in marked
    ensures Dag.ParentsIn(db, m, marked)
  {
    var i := db[x].issuer;
    if m in done {
      assert Dag.ParentsIn(db, m, seen);
    } else {
      assert i in Bits(n, view0, m);
      var v :| v in s && v in db && db[v].validation && db[v].issuer == i && Dag.InCone(db, m, v);
      forall p | p in db[m].Parents() && p != GENESIS
        ensures p in marked
      {
        Dag.ConeStaysClosed(db, s + {x}, m, v);
        assert Dag.ParentsIn(db, m, s + {x});
        ParentsOfCone(db, m, v, p);
        assert Covered(db, s, i, p);
        assert i in Bits(n, view0, p);
      }
    }
  }

  /** A message that is no validation block witnesses nothing. */
  lemma NoValidation(db: Dag.Ledger, n: nat, view: View, s: set<MessageID>, x: MessageID)
    requires WitnessesExact(db, n, view, s) && x in db && !db[x].validation
    ensures WitnessesExact(db, n, view, s + {x})
  {
    forall m, i
      ensures Covered(db, s, i, m) <==> Covered(db, s + {x}, i, m)
    {
    }
  }

  /** Storing a message leaves all witnesses as they were; the new message has none. */
  lemma StoringKeepsWitnesses(
    db: Dag.Ledger, db': Dag.Ledger, n: nat, view: View, view': View, s: set<MessageID>, id: MessageID)
    requires WitnessesExact(db, n, view, s) && Dag.WellFormed(db) && Dag.Closed(db, s)
    requires id !in db && Dag.Extends(db, db') && db'.Keys == db.Keys + {id} && view'.Keys == db'.Keys
    requires Sized(n, view') && Bits(n, view', id) == {} && forall m :: m in view ==> view'[m] == view[m]
    ensures WitnessesExact(db', n, view', s)
  {
    forall m, i | m in db'
      ensures i in Bits(n, view', m) <==> 0 <= i < n && Covered(db', s, i, m)
    {
      forall v | v in s
        ensures Dag.InCone(db, m, v) <==> Dag.InCone(db', m, v)
      {
        Dag.ClosedIsSolid(db, s, v);
        Dag.ConeFixed(db, db', m, v);
      }
      if m == id {
        forall v | v in s && Dag.InCone(db, m, v)
          ensures false
        {
          ConeIsStored(db, m, v);
        }
      } else {
        assert Covered(db', s, i, m) <==> Covered(db, s, i, m);
      }
    }
  }
}
