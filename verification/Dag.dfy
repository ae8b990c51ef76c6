/**
 The stored messages as a graph, and the plain functions of it that a node caches:
 what is solid, which colour a message inherits, and what lies in its past cone.
 */
module Dag {
  import opened Messages

  type Ledger = map<MessageID, Message>

  /** Identities are handed out after the parents were chosen, so parents have smaller ones. */
  predicate WellFormedMessage(m: Message) {
    && 0 < m.id
    && 0 < m.sequenceNumber
    && forall p :: p in m.Parents() ==> GENESIS <= p < m.id
  }

  ghost predicate WellFormed(db: Ledger) {
    forall id :: id in db ==> db[id].id == id && WellFormedMessage(db[id])
  }

  lemma StoringKeepsWellFormed(db: Ledger, m: Message)
    requires WellFormed(db) && WellFormedMessage(m)
    ensures WellFormed(db[m.id := m])
  {
  }

  lemma StoredIsWellFormed(db: Ledger, id: MessageID)
    requires WellFormed(db) && id in db
    ensures db[id].id == id && WellFormedMessage(db[id])
  {
  }

  ghost predicate Extends(db: Ledger, db': Ledger) {
    forall id :: id in db ==> id in db' && db'[id] == db[id]
  }

  // ----- solidity -----

  ghost predicate ParentsIn(db: Ledger, id: MessageID, s: set<MessageID>)
    requires id in db
  {
    forall p :: p in db[id].Parents() && p != GENESIS ==> p in s
  }

  /** A stored message is solid when its parents are. */
  ghost predicate Solid(db: Ledger, id: MessageID)
    decreases if id < 0 then 0 else id
  {
    id in db && forall p :: p in db[id].Parents() && p != GENESIS ==> 0 < p < id && Solid(db, p)
  }

  ghost function SolidSet(db: Ledger): set<MessageID> {
    set id | id in db && Solid(db, id)
  }

  /** `s` is a set of stored messages that holds the parents of its members. */
  ghost predicate Closed(db: Ledger, s: set<MessageID>) {
    forall id :: id in s ==> id in db && ParentsIn(db, id, s)
  }

  /** Closed sets hold solid messages only ... */
  lemma {:induction false} ClosedIsSolid(db: Ledger, s: set<MessageID>, id: MessageID)
    requires WellFormed(db) && Closed(db, s) && id in s
    ensures Solid(db, id)
    decreases if id < 0 then 0 else id
  {
    forall p | p in db[id].Parents() && p != GENESIS
      ensures 0 < p < id && Solid(db, p)
    {
      ClosedIsSolid(db, s, p);
    }
  }

  /** ... and all of them, once no message is left whose parents are in the set. */
  lemma {:induction false} CompleteHasSolid(db: Ledger, s: set<MessageID>, id: MessageID)
    requires WellFormed(db) && (forall x :: x in db && ParentsIn(db, x, s) ==> x in s)
    requires Solid(db, id)
    ensures id in s
    decreases if id < 0 then 0 else id
  {
    forall p | p in db[id].Parents() && p != GENESIS
      ensures p in s
    {
      CompleteHasSolid(db, s, p);
    }
  }

  lemma ClosedAndCompleteIsSolidSet(db: Ledger, s: set<MessageID>)
    requires WellFormed(db) && Closed(db, s)
    requires forall x :: x in db && ParentsIn(db, x, s) ==> x in s
    ensures s == SolidSet(db)
  {
    forall id | id in s
      ensures Solid(db, id)
    {
      ClosedIsSolid(db, s, id);
    }
    forall id | Solid(db, id)
      ensures id in s
    {
      CompleteHasSolid(db, s, id);
    }
    assert forall id :: id in s <==> id in SolidSet(db);
  }

  lemma SolidSetIsClosed(db: Ledger)
    ensures Closed(db, SolidSet(db))
  {
    forall id, p | id in SolidSet(db) && p in db[id].Parents() && p != GENESIS
      ensures p in SolidSet(db)
    {
      assert Solid(db, id);
    }
  }

  /** Storing more keeps what is solid. */
  lemma {:induction false} SolidGrows(db: Ledger, db': Ledger, id: MessageID)
    requires Extends(db, db') && Solid(db, id)
    ensures Solid(db', id)
    decreases if id < 0 then 0 else id
  {
    forall p | p in db'[id].Parents() && p != GENESIS
      ensures 0 < p < id && Solid(db', p)
    {
      SolidGrows(db, db', p);
    }
  }

  // ----- past cones -----

  /** `a` is `v` or is reached from it over strong and weak parents. */
  ghost predicate InCone(db: Ledger, a: MessageID, v: MessageID)
    decreases if v < 0 then 0 else v
  {
    v in db && (a == v || exists p :: p in db[v].Parents() && 0 < p < v && InCone(db, a, p))
  }

  /** What it means to be solid: the whole past cone is stored, down to the genesis. */
  lemma {:induction false} SolidIffConeStored(db: Ledger, id: MessageID)
    requires WellFormed(db)
    ensures Solid(db, id)
       <==> id in db && forall a, p :: InCone(db, a, id) && a in db && p in db[a].Parents() && p != GENESIS ==> p in db
    decreases if id < 0 then 0 else id
  {
    if id in db {
      forall p | p in db[id].Parents() && p != GENESIS
        ensures Solid(db, p)
           <==> p in db && forall a, q ::
                  InCone(db, a, p) && a in db && q in db[a].Parents() && q != GENESIS ==> q in db
      {
        SolidIffConeStored(db, p);
      }
      assert InCone(db, id, id);
      if Solid(db, id) {
        forall a, q | InCone(db, a, id) && a in db && q in db[a].Parents() && q != GENESIS
          ensures q in db
        {
          if a != id {
            var p :| p in db[id].Parents() && 0 < p < id && InCone(db, a, p);
          }
        }
      } else {
        var p :| p in db[id].Parents() && p != GENESIS && !Solid(db, p);
        if p in db {
          var a, q :| InCone(db, a, p) && a in db && q in db[a].Parents() && q != GENESIS && q !in db;
          assert InCone(db, a, id);
        }
      }
    }
  }

  lemma {:induction false} ConeTransitive(db: Ledger, a: MessageID, b: MessageID, c: MessageID)
    requires InCone(db, a, b) && InCone(db, b, c)
    ensures InCone(db, a, c)
    decreases if c < 0 then 0 else c
  {
    if b != c {
      var p :| p in db[c].Parents() && 0 < p < c && InCone(db, b, p);
      ConeTransitive(db, a, b, p);
    }
  }

  /** Members of a closed set only reach members of it. */
  lemma {:induction false} ConeStaysClosed(db: Ledger, s: set<MessageID>, a: MessageID, v: MessageID)
    requires Closed(db, s) && v in s && InCone(db, a, v)
    ensures a in s
    decreases if v < 0 then 0 else v
  {
    if a != v {
      var p :| p in db[v].Parents() && 0 < p < v && InCone(db, a, p);
      ConeStaysClosed(db, s, a, p);
    }
  }

  /** Past cones of solid messages do not change when more is stored. */
  lemma {:induction false} ConeFixed(db: Ledger, db': Ledger, a: MessageID, v: MessageID)
    requires Extends(db, db') && Solid(db, v)
    ensures InCone(db, a, v) <==> InCone(db', a, v)
    decreases if v < 0 then 0 else v
  {
    forall p | p in db[v].Parents() && 0 < p < v
      ensures InCone(db, a, p) <==> InCone(db', a, p)
    {
      ConeFixed(db, db', a, p);
    }
  }

  // ----- inherited colours -----

  ghost predicate Conflicting(colors: set<Color>) {
    exists c, d :: c in colors && d in colors && c != d
  }

  /** The colours that meet in a message: its payload and what its strong parents inherited. */
  ghost function Palette(db: Ledger, id: MessageID): set<Color>
    requires id in db
    decreases if id < 0 then 0 else id, 0
  {
    {db[id].payload} + (set p | p in db[id].strongParents && 0 < p < id :: Inherited(db, p)) - {UNDEFINED}
  }

  /** The colour of a message; a message in which colours conflict is invalid and has none. */
  ghost function Inherited(db: Ledger, id: MessageID): Color
    decreases if id < 0 then 0 else id, 1
  {
    if id !in db || Conflicting(Palette(db, id)) || Palette(db, id) == {} then UNDEFINED
    else
      Inhabited(Palette(db, id));
      var c :| c in Palette(db, id); c
  }

  ghost predicate Bookable(db: Ledger, id: MessageID) {
    id in db && !Conflicting(Palette(db, id))
  }

  /** `c` is the colour the message inherits, stated without choosing one. */
  ghost predicate IsBlend(colors: set<Color>, c: Color) {
    (forall d :: d in colors ==> d == c) && (c != UNDEFINED ==> c in colors)
  }

  lemma {:induction false} BlendIsInherited(db: Ledger, id: MessageID, c: Color)
    requires id in db && IsBlend(Palette(db, id), c)
    ensures Bookable(db, id) && Inherited(db, id) == c
  {
    Inhabited(Palette(db, id));
    assert UNDEFINED !in Palette(db, id);
  }

  lemma {:induction false} InheritedIsBlend(db: Ledger, id: MessageID)
    requires Bookable(db, id)
    ensures IsBlend(Palette(db, id), Inherited(db, id))
  {
    Inhabited(Palette(db, id));
  }

  lemma {:induction false} ColorFixed(db: Ledger, db': Ledger, id: MessageID)
    requires Extends(db, db') && Solid(db, id)
    ensures Inherited(db, id) == Inherited(db', id)
    ensures Bookable(db, id) <==> Bookable(db', id)
    decreases if id < 0 then 0 else id
  {
    forall p | p in db[id].strongParents && 0 < p < id
      ensures Inherited(db, p) == Inherited(db', p)
    {
      assert p in db[id].Parents();
      ColorFixed(db, db', p);
    }
    assert Palette(db, id) == Palette(db', id);
  }

  /** `a` is reached from `v` over strong parents, through validly booked messages only. */
  ghost predicate InBookedCone(db: Ledger, a: MessageID, v: MessageID)
    decreases if v < 0 then 0 else v
  {
    Bookable(db, v) && (a == v || exists p :: p in db[v].strongParents && 0 < p < v && InBookedCone(db, a, p))
  }

  /** Perceptions never mix: a valid message reaches no colour but its own along valid messages. */
  lemma {:induction false} MonochromeCone(db: Ledger, a: MessageID, v: MessageID)
    requires WellFormed(db) && InBookedCone(db, a, v)
    ensures Inherited(db, a) == UNDEFINED || Inherited(db, a) == Inherited(db, v)
    decreases if v < 0 then 0 else v
  {
    if a != v {
      var p :| p in db[v].strongParents && 0 < p < v && InBookedCone(db, a, p);
      MonochromeCone(db, a, p);
      InheritedIsBlend(db, v);
      assert Inherited(db, p) == UNDEFINED || Inherited(db, p) in Palette(db, v);
    }
  }
}
