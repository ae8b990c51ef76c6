/**
 Which colours a node lists in its table of weights (multiverse/opinion_manager.go). A colour stays listed after
 all its voters went over to others, so the table depends on the order in which messages were booked.
 */
module Listing {
  import opened Messages
  import opened Opinions
  import opened PeerWeights
  import opened Pipeline
  import opened Voting
  import Dag

  /** An order in which the messages of `s` can be booked: each once, after its parents. */
  ghost predicate Order(db: Dag.Ledger, s: set<MessageID>, log: seq<MessageID>) {
    Once(log) && ParentsFirst(db, log) && forall id :: id in log <==> id in s
  }

  ghost function IDs(log: seq<MessageID>): set<MessageID> {
    set id | id in log
  }

  /** The votes after messages were booked in some order. */
  ghost function VotesAfter(db: Dag.Ledger, log: seq<MessageID>): Votes {
    if log == [] then map[]
    else
      var before, id := VotesAfter(db, log[..|log| - 1]), log[|log| - 1];
      if id in db then Voted(before, db[id], Dag.Inherited(db, id)) else before
  }

  /** The colours that are listed then. */
  ghost function ColorsAfter(db: Dag.Ledger, log: seq<MessageID>): set<Color> {
    if log == [] then {}
    else
      var before, id := log[..|log| - 1], log[|log| - 1];
      if id in db then Listed(ColorsAfter(db, before), VotesAfter(db, before), db[id], Dag.Inherited(db, id))
      else ColorsAfter(db, before)
  }

  lemma {:induction false} OneMoreBooked(db: Dag.Ledger, log: seq<MessageID>, id: MessageID)
    requires id in db
    ensures VotesAfter(db, log + [id]) == Voted(VotesAfter(db, log), db[id], Dag.Inherited(db, id))
    ensures ColorsAfter(db, log + [id])
         == Listed(ColorsAfter(db, log), VotesAfter(db, log), db[id], Dag.Inherited(db, id))
    ensures IDs(log + [id]) == IDs(log) + {id}
  {
    assert (log + [id])[..|log|] == log;
  }

  lemma {:induction false} VotesAreLatest(db: Dag.Ledger, log: seq<MessageID>)
    requires forall id :: id in log ==> id in db
    ensures LatestVotes(db, IDs(log), VotesAfter(db, log))
  {
    if log != [] {
      var before, id := log[..|log| - 1], log[|log| - 1];
      assert log == before + [id];
      VotesAreLatest(db, before);
      OneMoreBooked(db, before, id);
      OneMoreVote(db, IDs(before), VotesAfter(db, before), id);
    }
  }

  /** What was stored later does not change votes and colours. */
  lemma {:induction false} StoringKeepsListing(db: Dag.Ledger, db': Dag.Ledger, s: set<MessageID>, log: seq<MessageID>)
    requires Dag.WellFormed(db) && Dag.Extends(db, db') && Dag.Closed(db, s) && forall id :: id in log ==> id in s
    ensures VotesAfter(db', log) == VotesAfter(db, log) && ColorsAfter(db', log) == ColorsAfter(db, log)
  {
    if log != [] {
      StoringKeepsListing(db, db', s, log[..|log| - 1]);
      SameColors(db, db', s);
      var id := log[|log| - 1];
      assert id in log;
    }
  }

  /** The votes and the listed colours follow from the order in which messages were booked. */
  ghost predicate Tabled(
    db: Dag.Ledger, booked: set<MessageID>, log: seq<MessageID>, votes: Votes, colors: set<Color>)
  {
    (forall id :: id in log <==> id in booked) && votes == VotesAfter(db, log) && colors == ColorsAfter(db, log)
  }

  lemma {:induction false} OneMoreTabled(
    db: Dag.Ledger, booked: set<MessageID>, log: seq<MessageID>, votes: Votes, colors: set<Color>, id: MessageID)
    requires Tabled(db, booked, log, votes, colors) && id in db
    ensures Tabled(db, booked + {id}, log + [id], Voted(votes, db[id], Dag.Inherited(db, id)),
                   Listed(colors, votes, db[id], Dag.Inherited(db, id)))
  {
    OneMoreBooked(db, log, id);
  }

  lemma StoringKeepsTable(
    db: Dag.Ledger, db': Dag.Ledger, booked: set<MessageID>, log: seq<MessageID>, votes: Votes, colors: set<Color>)
    requires Dag.WellFormed(db) && Dag.Extends(db, db') && Dag.Closed(db, booked)
    requires Tabled(db, booked, log, votes, colors)
    ensures Tabled(db', booked, log, votes, colors)
  {
    StoringKeepsListing(db, db', booked, log);
  }

  // ----- when a colour is listed -----

  /** A message with the colour `c`. */
  ghost predicate Carries(db: Dag.Ledger, id: MessageID, c: Color) {
    id in db && c != UNDEFINED && Dag.Inherited(db, id) == c
  }

  /** Once `y` is booked, `x` is not counted any more: it is a vote of the same issuer that is not newer. */
  ghost predicate Outdates(db: Dag.Ledger, y: MessageID, x: MessageID) {
    && x in db && y in db && x != y && db[y].issuer == db[x].issuer
    && Dag.Inherited(db, y) != UNDEFINED && db[x].sequenceNumber <= db[y].sequenceNumber
  }

  /** The message at `i` brings its colour into the table. */
  ghost predicate Lists(db: Dag.Ledger, log: seq<MessageID>, i: nat, c: Color)
    requires i < |log|
  {
    Carries(db, log[i], c) && forall y :: y in log[..i] ==> !Outdates(db, y, log[i])
  }

  lemma {:induction false} CountsIff(db: Dag.Ledger, log: seq<MessageID>, x: MessageID)
    requires (forall id :: id in log ==> id in db) && x in db && x !in log
    ensures Counts(VotesAfter(db, log), db[x], Dag.Inherited(db, x))
       <==> Dag.Inherited(db, x) != UNDEFINED && forall y :: y in log ==> !Outdates(db, y, x)
  {
    hide Dag.Inherited;
    VotesAreLatest(db, log);
    var votes, p := VotesAfter(db, log), db[x].issuer;
    if p in votes {
      assert IsLatest(db, IDs(log), p, votes[p]);
      forall y | y in log && Outdates(db, y, x)
        ensures db[y].sequenceNumber <= votes[p].sequenceNumber
      {
        assert y in IDs(log) && IsVote(db, y, p);
      }
      var z :| z in IDs(log) && IsVote(db, z, p) && votes[p] == Opinion(Dag.Inherited(db, z), db[z].sequenceNumber);
      assert z in log;
    } else {
      forall y | y in log
        ensures !Outdates(db, y, x)
      {
        assert y in IDs(log);
      }
    }
  }

  lemma {:induction false} ListedIff(db: Dag.Ledger, log: seq<MessageID>, c: Color)
    requires Once(log) && forall id :: id in log ==> id in db
    ensures c in ColorsAfter(db, log) <==> exists i :: 0 <= i < |log| && Lists(db, log, i, c)
  {
    if log != [] {
      var before, last := log[..|log| - 1], |log| - 1;
      var x := log[last];
      forall i | 0 <= i < |before|
        ensures before[i] == log[i] && before[..i] == log[..i] && log[i] != x
      {
      }
      assert log == before + [x];
      ListedIff(db, before, c);
      OneMoreBooked(db, before, x);
      CountsIff(db, before, x);
      assert log[..last] == before;
      forall i | 0 <= i < last
        ensures Lists(db, log, i, c) <==> Lists(db, before, i, c)
      {
      }
      assert Lists(db, log, last, c)
        <==> Dag.Inherited(db, x) == c && Counts(VotesAfter(db, before), db[x], Dag.Inherited(db, x));
    }
  }

  // ----- the colours that some order lists -----

  /** Some message of the colour can be booked before all that outdates it. */
  ghost predicate Listable(db: Dag.Ledger, s: set<MessageID>, c: Color) {
    exists x :: x in s && FirstPossible(db, x, c)
  }

  ghost predicate FirstPossible(db: Dag.Ledger, x: MessageID, c: Color) {
    Carries(db, x, c) && forall y :: Dag.InCone(db, y, x) ==> !Outdates(db, y, x)
  }

  lemma {:induction false} ConeComesFirst(db: Dag.Ledger, log: seq<MessageID>, i: nat, y: MessageID)
    requires ParentsFirst(db, log) && i < |log| && Dag.InCone(db, y, log[i])
    ensures y in log[..i + 1]
    decreases i
  {
    assert log[i] in log[..i + 1];
    if y != log[i] {
      var p :| p in db[log[i]].Parents() && 0 < p < log[i] && Dag.InCone(db, y, p);
      assert After(db, log, i);
      var j :| 0 <= j < i && log[j] == p;
      ConeComesFirst(db, log, j, y);
      assert log[..j + 1] <= log[..i + 1];
    }
  }

  lemma {:induction false} ListedIsListable(db: Dag.Ledger, s: set<MessageID>, log: seq<MessageID>, c: Color)
    requires Dag.Closed(db, s) && Order(db, s, log) && c in ColorsAfter(db, log)
    ensures Listable(db, s, c)
  {
    hide Dag.Closed, ColorsAfter;
    Inside(db, s, log);
    ListedIff(db, log, c);
    var i :| 0 <= i < |log| && Lists(db, log, i, c);
    forall y | Dag.InCone(db, y, log[i])
      ensures !Outdates(db, y, log[i])
    {
      ConeComesFirst(db, log, i, y);
    }
    assert FirstPossible(db, log[i], c);
  }

  lemma Inside(db: Dag.Ledger, s: set<MessageID>, log: seq<MessageID>)
    requires Dag.Closed(db, s) && forall id :: id in log ==> id in s
    ensures forall id :: id in log ==> id in db
  {
  }

  // ----- completing an order -----

  /** Part of an order. */
  ghost predicate Partial(db: Dag.Ledger, s: set<MessageID>, log: seq<MessageID>) {
    Once(log) && ParentsFirst(db, log) && forall id :: id in log ==> id in s
  }

  lemma {:induction false} Least(s: set<int>) returns (x: int)
    requires s != {}
    ensures x in s && forall y :: y in s ==> x <= y
    decreases s
  {
    Inhabited(s);
    var first :| first in s;
    var rest := s - {first};
    x := first;
    if rest != {} {
      var y := Least(rest);
      x := if y < first then y else first;
    }
    forall y | y in s
      ensures x <= y
    {
      assert y == first || y in rest;
    }
  }

  lemma OneMore(db: Dag.Ledger, s: set<MessageID>, log: seq<MessageID>, x: MessageID)
    requires Dag.Closed(db, s) && Partial(db, s, log) && x in s && x !in log && Dag.ParentsIn(db, x, IDs(log))
    ensures Partial(db, s, log + [x]) && IDs(log + [x]) == IDs(log) + {x}
    ensures s - IDs(log + [x]) < s - IDs(log)
  {
    OneMoreEvent(log, x);
    OneMoreAfterParents(db, log, x);
    assert IDs(log + [x]) == IDs(log) + {x};
    assert x in s - IDs(log) && x !in s - IDs(log + [x]);
  }

  lemma AllBooked(db: Dag.Ledger, s: set<MessageID>, log: seq<MessageID>)
    requires Partial(db, s, log) && s - IDs(log) == {}
    ensures Order(db, s, log)
  {
    forall id | id in s
      ensures id in log
    {
      assert id !in s - IDs(log);
    }
  }

  /** The oldest of the remaining messages can always be booked next. */
  lemma OldestIsNext(db: Dag.Ledger, s: set<MessageID>, log: seq<MessageID>) returns (x: MessageID)
    requires Dag.WellFormed(db) && Dag.Closed(db, s) && s - IDs(log) != {}
    ensures x in s && x !in log && Dag.ParentsIn(db, x, IDs(log))
  {
    x := Least(s - IDs(log));
    forall p | p in db[x].Parents() && p != GENESIS
      ensures p in IDs(log)
    {
      assert p in s && p < x;
      assert p in s - IDs(log) ==> x <= p;
    }
  }

  lemma {:induction false} Complete(
    db: Dag.Ledger, s: set<MessageID>, log: seq<MessageID>) returns (log': seq<MessageID>)
    requires Dag.WellFormed(db) && Dag.Closed(db, s) && Partial(db, s, log)
    ensures Order(db, s, log') && log <= log'
    decreases s - IDs(log)
  {
    hide Dag.WellFormed, Dag.Closed;
    if s - IDs(log) == {} {
      AllBooked(db, s, log);
      log' := log;
    } else {
      var x := OldestIsNext(db, s, log);
      OneMore(db, s, log, x);
      log' := Complete(db, s, log + [x]);
    }
  }

  ghost function Cone(db: Dag.Ledger, s: set<MessageID>, x: MessageID): set<MessageID> {
    set y | y in s && Dag.InCone(db, y, x)
  }

  lemma ConeIsClosed(db: Dag.Ledger, s: set<MessageID>, x: MessageID)
    requires Dag.WellFormed(db) && Dag.Closed(db, s) && x in s
    ensures Dag.Closed(db, Cone(db, s, x)) && x in Cone(db, s, x)
  {
    assert Dag.InCone(db, x, x);
    forall y, p | y in Cone(db, s, x) && p in db[y].Parents() && p != GENESIS
      ensures p in Cone(db, s, x)
    {
      assert p in s && p in db && 0 < p < y;
      assert Dag.InCone(db, p, p);
      assert Dag.InCone(db, p, y);
      Dag.ConeTransitive(db, p, y, x);
    }
  }

  /** Every listable colour is listed in some order: one that begins with the past cone of the message. */
  lemma ListableIsListed(db: Dag.Ledger, s: set<MessageID>, c: Color) returns (log: seq<MessageID>)
    requires Dag.WellFormed(db) && Dag.Closed(db, s) && Listable(db, s, c)
    ensures Order(db, s, log) && c in ColorsAfter(db, log)
  {
    hide ColorsAfter, Dag.WellFormed;
    var x :| x in s && FirstPossible(db, x, c);
    ConeIsClosed(db, s, x);
    var cone := Cone(db, s, x);
    assert Partial(db, cone, []);
    var first := Complete(db, cone, []);
    assert Partial(db, s, first);
    log := Complete(db, s, first);
    Inside(db, s, log);
    var i :| 0 <= i < |first| && first[i] == x;
    assert log[i] == x;
    forall y | y in log[..i]
      ensures !Outdates(db, y, x)
    {
      assert log[..i] == first[..i];
      assert y in first;
    }
    assert Lists(db, log, i, c);
    ListedIff(db, log, c);
  }

  // ----- the colours that every order lists -----

  /** Messages of one colour, of which none can be outdated before one of them was booked. */
  ghost predicate Anchor(db: Dag.Ledger, s: set<MessageID>, k: set<MessageID>, c: Color) {
    && k != {} && k <= s && (forall x :: x in k ==> Carries(db, x, c))
    && forall x, y :: x in k && y in s && Outdates(db, y, x) ==> Above(db, k, y)
  }

  ghost predicate Above(db: Dag.Ledger, k: set<MessageID>, y: MessageID) {
    exists a :: a in k && Dag.InCone(db, a, y)
  }

  ghost predicate Anchored(db: Dag.Ledger, s: set<MessageID>, c: Color) {
    exists k :: Anchor(db, s, k, c)
  }

  /** The first member of `k` in the log. */
  lemma {:induction false} FirstOf(log: seq<MessageID>, k: set<MessageID>) returns (i: nat)
    requires exists x :: x in k && x in log
    ensures i < |log| && log[i] in k && forall y :: y in log[..i] ==> y !in k
  {
    var before := log[..|log| - 1];
    if x :| x in k && x in before {
      i := FirstOf(before, k);
      assert log[..i] == before[..i];
    } else {
      i := |log| - 1;
    }
  }

  lemma NothingAboveYet(db: Dag.Ledger, log: seq<MessageID>, i: nat, k: set<MessageID>, y: MessageID)
    requires ParentsFirst(db, log) && i < |log| && (forall x :: x in log[..i] ==> x !in k) && y in log[..i]
    ensures !Above(db, k, y)
  {
    var j :| 0 <= j < i && log[j] == y;
    forall a | Dag.InCone(db, a, y)
      ensures a in log[..i]
    {
      ConeComesFirst(db, log, j, a);
      assert log[..j + 1] <= log[..i];
    }
  }

  lemma {:induction false} AnchoredIsListed(db: Dag.Ledger, s: set<MessageID>, log: seq<MessageID>, c: Color)
    requires Dag.Closed(db, s) && Order(db, s, log) && Anchored(db, s, c)
    ensures c in ColorsAfter(db, log)
  {
    hide ColorsAfter, Dag.Closed;
    Inside(db, s, log);
    var k :| Anchor(db, s, k, c);
    Inhabited(k);
    var i := FirstOf(log, k);
    forall y | y in log[..i]
      ensures !Outdates(db, y, log[i])
    {
      NothingAboveYet(db, log, i, k, y);
      assert y in s;
    }
    assert Lists(db, log, i, c);
    ListedIff(db, log, c);
  }

  /** The messages that can be booked next. */
  ghost function Candidates(db: Dag.Ledger, s: set<MessageID>, log: seq<MessageID>): set<MessageID> {
    set x | x in s && x in db && x !in log && Dag.ParentsIn(db, x, IDs(log))
  }

  lemma {:induction false} CandidateBelow(db: Dag.Ledger, s: set<MessageID>, log: seq<MessageID>, y: MessageID)
    requires Dag.WellFormed(db) && Dag.Closed(db, s) && y in s && y !in log
    ensures Above(db, Candidates(db, s, log), y)
    decreases if y < 0 then 0 else y
  {
    assert Dag.InCone(db, y, y);
    if Dag.ParentsIn(db, y, IDs(log)) {
      assert y in Candidates(db, s, log);
    } else {
      var p :| p in db[y].Parents() && p != GENESIS && p !in IDs(log);
      assert p in s && 0 < p < y;
      CandidateBelow(db, s, log, p);
      var a :| a in Candidates(db, s, log) && Dag.InCone(db, a, p);
      assert Dag.InCone(db, a, y);
    }
  }

  /** The message does not bring `c` into the table when it is booked next. */
  ghost predicate Harmless(db: Dag.Ledger, log: seq<MessageID>, x: MessageID, c: Color) {
    Carries(db, x, c) ==> exists y :: y in log && Outdates(db, y, x)
  }

  /** Where every candidate would list the colour, the candidates are an anchor. */
  lemma StuckIsAnchor(db: Dag.Ledger, s: set<MessageID>, log: seq<MessageID>, c: Color)
    requires Dag.WellFormed(db) && Dag.Closed(db, s) && s - IDs(log) != {}
    requires forall x :: x in Candidates(db, s, log) ==> !Harmless(db, log, x, c)
    ensures Anchor(db, s, Candidates(db, s, log), c)
  {
    var k := Candidates(db, s, log);
    var least := OldestIsNext(db, s, log);
    assert least in k;
    forall x, y | x in k && y in s && Outdates(db, y, x)
      ensures Above(db, k, y)
    {
      assert !Harmless(db, log, x, c);
      CandidateBelow(db, s, log, y);
    }
    forall x | x in k
      ensures Carries(db, x, c)
    {
      assert !Harmless(db, log, x, c);
    }
  }

  lemma {:induction false} HarmlessListsNothing(db: Dag.Ledger, log: seq<MessageID>, x: MessageID, c: Color)
    requires (forall id :: id in log ==> id in db) && x in db && x !in log && c != UNDEFINED
    requires c !in ColorsAfter(db, log) && Harmless(db, log, x, c)
    ensures c !in ColorsAfter(db, log + [x])
  {
    OneMoreBooked(db, log, x);
    CountsIff(db, log, x);
  }

  /** A colour without an anchor can be avoided: always book a message next that does not list it. */
  lemma {:induction false} Avoid(
    db: Dag.Ledger, s: set<MessageID>, log: seq<MessageID>, c: Color) returns (log': seq<MessageID>)
    requires Dag.WellFormed(db) && Dag.Closed(db, s) && Partial(db, s, log) && c != UNDEFINED
    requires !Anchored(db, s, c) && c !in ColorsAfter(db, log)
    ensures Order(db, s, log') && c !in ColorsAfter(db, log')
    decreases s - IDs(log)
  {
    hide ColorsAfter, Dag.WellFormed, Dag.Closed, Harmless, Anchor;
    if s - IDs(log) == {} {
      AllBooked(db, s, log);
      log' := log;
    } else if x :| x in Candidates(db, s, log) && Harmless(db, log, x, c) {
      Inside(db, s, log);
      HarmlessListsNothing(db, log, x, c);
      OneMore(db, s, log, x);
      log' := Avoid(db, s, log + [x], c);
    } else {
      StuckIsAnchor(db, s, log, c);
      assert false;
      log' := [];
    }
  }

  // ----- what the order decides -----

  /** The smallest listable colour, if any colour is listable, is listed in every order. */
  ghost predicate Determined(db: Dag.Ledger, s: set<MessageID>) {
    forall c :: Listable(db, s, c) && (forall d :: Listable(db, s, d) ==> c <= d) ==> Anchored(db, s, c)
  }

  ghost predicate IsSmallest(colors: set<Color>, c: Color) {
    if colors == {} then c == UNDEFINED else c in colors && forall d :: d in colors ==> c <= d
  }

  ghost function Smallest(colors: set<Color>): (c: Color)
    ensures IsSmallest(colors, c)
  {
    SmallestExists(colors);
    var c :| IsSmallest(colors, c);
    c
  }

  lemma SmallestExists(colors: set<Color>)
    ensures exists c :: IsSmallest(colors, c)
  {
    if colors == {} {
      assert IsSmallest(colors, UNDEFINED);
    } else {
      var c := Least(colors);
      assert IsSmallest(colors, c);
    }
  }

  ghost function ListableColors(db: Dag.Ledger, s: set<MessageID>): set<Color> {
    set x | x in s && Listable(db, s, Dag.Inherited(db, x)) :: Dag.Inherited(db, x)
  }

  lemma ListableIff(db: Dag.Ledger, s: set<MessageID>, c: Color)
    ensures c in ListableColors(db, s) <==> Listable(db, s, c)
  {
    if Listable(db, s, c) {
      var x :| x in s && FirstPossible(db, x, c);
    }
  }

  ghost predicate SameSmallest(db: Dag.Ledger, s: set<MessageID>) {
    forall log, log' :: Order(db, s, log) && Order(db, s, log') ==>
      Smallest(ColorsAfter(db, log)) == Smallest(ColorsAfter(db, log'))
  }

  lemma {:induction false} DeterminedIsSmallest(db: Dag.Ledger, s: set<MessageID>, log: seq<MessageID>)
    requires Dag.Closed(db, s) && Determined(db, s) && Order(db, s, log)
    ensures Smallest(ColorsAfter(db, log)) == Smallest(ListableColors(db, s))
  {
    hide ColorsAfter, ListableColors, Listable, Anchored, Order, Dag.Closed;
    var colors, listable := ColorsAfter(db, log), ListableColors(db, s);
    forall c | c in colors
      ensures c in listable
    {
      ListedIsListable(db, s, log, c);
      ListableIff(db, s, c);
    }
    if listable != {} {
      var c := Smallest(listable);
      ListableIff(db, s, c);
      forall d | Listable(db, s, d)
        ensures c <= d
      {
        ListableIff(db, s, d);
      }
      AnchoredIsListed(db, s, log, c);
    } else {
      Inhabited(colors);
    }
  }

  /** Two orders that list different smallest colours, when the smallest listable one has no anchor. */
  lemma TwoOrders(db: Dag.Ledger, s: set<MessageID>) returns (log: seq<MessageID>, log': seq<MessageID>)
    requires Dag.WellFormed(db) && Dag.Closed(db, s) && !Determined(db, s)
    ensures Order(db, s, log) && Order(db, s, log')
    ensures Smallest(ColorsAfter(db, log)) != Smallest(ColorsAfter(db, log'))
  {
    hide ColorsAfter, Anchored, Order, Dag.Closed, Dag.WellFormed;
    var c :| Listable(db, s, c) && (forall d :: Listable(db, s, d) ==> c <= d) && !Anchored(db, s, c);
    hide Listable;
    log := ListableIsListed(db, s, c);
    forall d | d in ColorsAfter(db, log)
      ensures c <= d
    {
      ListedIsListable(db, s, log, d);
    }
    NothingBookedYet(db, s);
    ListableIsColor(db, s, c);
    log' := Avoid(db, s, [], c);
  }

  lemma {:induction false} NothingBookedYet(db: Dag.Ledger, s: set<MessageID>)
    ensures Partial(db, s, []) && ColorsAfter(db, []) == {}
  {
  }

  lemma ListableIsColor(db: Dag.Ledger, s: set<MessageID>, c: Color)
    requires Listable(db, s, c)
    ensures c != UNDEFINED
  {
  }

  /** Exactly when the order of booking does not matter for the smallest listed colour. */
  lemma SmallestDeterminedIff(db: Dag.Ledger, s: set<MessageID>)
    requires Dag.WellFormed(db) && Dag.Closed(db, s)
    ensures SameSmallest(db, s) <==> Determined(db, s)
  {
    hide ColorsAfter, Order, Dag.Closed, Dag.WellFormed, Determined;
    if Determined(db, s) {
      forall log, log' | Order(db, s, log) && Order(db, s, log')
        ensures Smallest(ColorsAfter(db, log)) == Smallest(ColorsAfter(db, log'))
      {
        DeterminedIsSmallest(db, s, log);
        DeterminedIsSmallest(db, s, log');
      }
    } else {
      var log, log' := TwoOrders(db, s);
    }
  }

  // ----- the own opinion -----

  /** The table of weights after messages were booked in some order, and the opinion formed by it. */
  ghost function TallyAfter(w: Weights, n: nat, db: Dag.Ledger, log: seq<MessageID>): Tally {
    map c | c in ColorsAfter(db, log) :: Sum(w, Supporters(VotesAfter(db, log), c), n)
  }

  ghost function OpinionAfter(w: Weights, n: nat, db: Dag.Ledger, log: seq<MessageID>): Color {
    MaxOpinion(TallyAfter(w, n, db, log))
  }

  /** Somebody with weight has voted. */
  ghost predicate Weighty(w: Weights, n: nat, db: Dag.Ledger, s: set<MessageID>) {
    exists x :: x in s && x in db && HasWeight(w, n, db, x)
  }

  ghost predicate HasWeight(w: Weights, n: nat, db: Dag.Ledger, x: MessageID)
    requires x in db
  {
    Dag.Inherited(db, x) != UNDEFINED && 0 <= db[x].issuer < n && WeightOf(w, db[x].issuer) > 0
  }

  lemma {:induction false} TallyIsTallied(
    w: Weights, n: nat, votes: Votes, aw: Tally, db: Dag.Ledger, log: seq<MessageID>)
    requires Tallied(w, n, votes, aw) && votes == VotesAfter(db, log) && aw.Keys == ColorsAfter(db, log)
    ensures aw == TallyAfter(w, n, db, log)
  {
    forall c | c in aw
      ensures aw[c] == Sum(w, Supporters(votes, c), n)
    {
      assert WeightIn(aw, c) == aw[c];
    }
  }

  /** Who supports a colour voted for it with a message that was booked, so the colour is listed. */
  lemma {:induction false} VotesAreListed(db: Dag.Ledger, log: seq<MessageID>)
    ensures forall p :: p in VotesAfter(db, log) ==> VotesAfter(db, log)[p].color in ColorsAfter(db, log)
  {
    if log != [] {
      VotesAreListed(db, log[..|log| - 1]);
    }
  }

  lemma {:induction false} WeightAfter(w: Weights, n: nat, db: Dag.Ledger, log: seq<MessageID>, c: Color)
    ensures WeightIn(TallyAfter(w, n, db, log), c) == Sum(w, Supporters(VotesAfter(db, log), c), n)
  {
    hide ColorsAfter, VotesAfter;
    VotesAreListed(db, log);
    if c !in ColorsAfter(db, log) {
      SumOfNone(w, Supporters(VotesAfter(db, log), c), n);
    }
  }

  /** Some colour weighs something exactly when somebody with weight has voted. */
  lemma {:induction false} WeightyIff(w: Weights, n: nat, db: Dag.Ledger, s: set<MessageID>, log: seq<MessageID>)
    requires Dag.Closed(db, s) && Order(db, s, log)
    ensures SomeWeight(TallyAfter(w, n, db, log)) <==> Weighty(w, n, db, s)
  {
    hide ColorsAfter, VotesAfter, TallyAfter, Dag.Inherited;
    var aw, votes := TallyAfter(w, n, db, log), VotesAfter(db, log);
    Inside(db, s, log);
    VotesAreLatest(db, log);
    if SomeWeight(aw) {
      var c :| WeightIn(aw, c) > 0;
      WeightAfter(w, n, db, log, c);
      var p := SumWitness(w, Supporters(votes, c), n);
      assert IsLatest(db, IDs(log), p, votes[p]);
      var x :| x in IDs(log) && IsVote(db, x, p) && votes[p] == Opinion(Dag.Inherited(db, x), db[x].sequenceNumber);
      assert x in s && HasWeight(w, n, db, x);
    }
    if x :| x in s && x in db && HasWeight(w, n, db, x) {
      var p := db[x].issuer;
      assert x in IDs(log) && p in votes;
      WeightAfter(w, n, db, log, votes[p].color);
      SumMember(w, Supporters(votes, votes[p].color), p, n);
      assert WeightIn(aw, votes[p].color) > 0;
    }
  }

  lemma {:induction false} SameTally(
    w: Weights, n: nat, db: Dag.Ledger, s: set<MessageID>, log: seq<MessageID>, log': seq<MessageID>)
    requires Numbered(db) && Dag.Closed(db, s) && Order(db, s, log) && Order(db, s, log')
    ensures VotesAfter(db, log) == VotesAfter(db, log')
    ensures SameWeights(TallyAfter(w, n, db, log), TallyAfter(w, n, db, log'))
  {
    hide ColorsAfter, VotesAfter, TallyAfter, LatestVotes, Numbered;
    Inside(db, s, log);
    VotesAreLatest(db, log);
    VotesAreLatest(db, log');
    assert forall id :: id in IDs(log) <==> id in IDs(log');
    assert IDs(log) == IDs(log');
    LatestVotesAreUnique(db, IDs(log), VotesAfter(db, log), VotesAfter(db, log'));
    forall c
      ensures WeightIn(TallyAfter(w, n, db, log), c) == WeightIn(TallyAfter(w, n, db, log'), c)
    {
      WeightAfter(w, n, db, log, c);
      WeightAfter(w, n, db, log', c);
    }
  }

  /** Where no colour weighs anything, the smallest one wins. */
  lemma WeightlessWinner(aw: Tally)
    requires !SomeWeight(aw)
    ensures MaxOpinion(aw) == Smallest(aw.Keys)
  {
    forall c | c in aw
      ensures aw[c] == 0
    {
      assert WeightIn(aw, c) == aw[c];
    }
    assert aw.Keys == {} <==> aw == map[];
    assert IsMaxOpinion(aw, Smallest(aw.Keys));
    MaxOpinionIsUnique(aw, MaxOpinion(aw), Smallest(aw.Keys));
  }

  lemma {:induction false} WeightlessOpinion(w: Weights, n: nat, db: Dag.Ledger, s: set<MessageID>, log: seq<MessageID>)
    requires Dag.Closed(db, s) && Order(db, s, log) && !Weighty(w, n, db, s)
    ensures OpinionAfter(w, n, db, log) == Smallest(ColorsAfter(db, log))
  {
    WeightyIff(w, n, db, s, log);
    WeightlessWinner(TallyAfter(w, n, db, log));
    assert TallyAfter(w, n, db, log).Keys == ColorsAfter(db, log);
  }

  ghost predicate SameOpinion(w: Weights, n: nat, db: Dag.Ledger, s: set<MessageID>) {
    forall log, log' :: Order(db, s, log) && Order(db, s, log') ==>
      OpinionAfter(w, n, db, log) == OpinionAfter(w, n, db, log')
  }

  /** With a vote that weighs something, the order of booking does not matter for the opinion ... */
  lemma WeightDecides(w: Weights, n: nat, db: Dag.Ledger, s: set<MessageID>)
    requires Numbered(db) && Dag.Closed(db, s) && Weighty(w, n, db, s)
    ensures SameOpinion(w, n, db, s)
  {
    hide Numbered, Dag.Closed, Order, Weighty, TallyAfter, SomeWeight, SameWeights;
    forall log, log' | Order(db, s, log) && Order(db, s, log')
      ensures OpinionAfter(w, n, db, log) == OpinionAfter(w, n, db, log')
    {
      WeightyIff(w, n, db, s, log);
      SameTally(w, n, db, s, log, log');
      Opinions.SameWinner(TallyAfter(w, n, db, log), TallyAfter(w, n, db, log'));
    }
  }

  /** ... and without one exactly if the smallest colour that some order lists is listed by every order. */
  lemma OpinionDeterminedIff(w: Weights, n: nat, db: Dag.Ledger, s: set<MessageID>)
    requires Dag.WellFormed(db) && Numbered(db) && Dag.Closed(db, s)
    ensures SameOpinion(w, n, db, s) <==> Weighty(w, n, db, s) || Determined(db, s)
  {
    hide Numbered, Dag.WellFormed, Dag.Closed, Order, Weighty, Determined, OpinionAfter, ColorsAfter;
    if Weighty(w, n, db, s) {
      WeightDecides(w, n, db, s);
    } else {
      forall log | Order(db, s, log)
        ensures OpinionAfter(w, n, db, log) == Smallest(ColorsAfter(db, log))
      {
        WeightlessOpinion(w, n, db, s, log);
      }
      SmallestDeterminedIff(db, s);
    }
  }

  /** A simple case: the smallest colour of all is the colour of a latest vote. */
  lemma LatestIsAnchored(db: Dag.Ledger, s: set<MessageID>, x: MessageID, c: Color)
    requires Dag.Closed(db, s) && x in s && Carries(db, x, c) && forall y :: y in s ==> !Outdates(db, y, x)
    requires forall y, d :: y in s && Carries(db, y, d) ==> c <= d
    ensures Determined(db, s)
  {
    forall y | Dag.InCone(db, y, x)
      ensures !Outdates(db, y, x)
    {
      Dag.ConeStaysClosed(db, s, y, x);
    }
    assert FirstPossible(db, x, c);
    assert Anchor(db, s, {x}, c);
    forall d | Listable(db, s, d) && forall e :: Listable(db, s, e) ==> d <= e
      ensures Anchored(db, s, d)
    {
      var y :| y in s && FirstPossible(db, y, d);
      assert Listable(db, s, c);
    }
  }

  /** The message names no parent but the genesis, and sets a colour. */
  predicate Sets(m: Message, c: Color) {
    m.Parents() <= {GENESIS} && m.payload == c && c != UNDEFINED && 0 < m.id
  }

  lemma {:induction false} SetsItsColor(db: Dag.Ledger, id: MessageID, c: Color)
    requires id in db && Sets(db[id], c)
    ensures Dag.Inherited(db, id) == c
  {
    assert db[id].strongParents <= db[id].Parents();
    assert Dag.Palette(db, id) == {c};
  }

  lemma {:induction false} TwoBooked(db: Dag.Ledger, x: MessageID, y: MessageID, c: Color, d: Color)
    requires x in db && y in db && x != y && db[x].id == x && db[y].id == y && Dag.WellFormed(db)
    requires Sets(db[x], c) && Sets(db[y], d) && db[x].issuer == db[y].issuer
    ensures Order(db, {x, y}, [x, y]) && Dag.Closed(db, {x, y})
    ensures ColorsAfter(db, [x, y]) == if db[x].sequenceNumber < db[y].sequenceNumber then {c, d} else {c}
  {
    SetsItsColor(db, x, c);
    SetsItsColor(db, y, d);
    hide Dag.Inherited;
    assert [x, y] == [] + [x] + [y];
    OneMoreBooked(db, [], x);
    OneMoreBooked(db, [x], y);
    assert After(db, [x, y], 0) && After(db, [x, y], 1);
  }

  /**
   An issuer without weight changes its colour: who hears of the change last keeps the smaller colour, and who
   hears of it first never lists that.
   */
  lemma {:induction false} ChangeOfColor(
    w: Weights, n: nat, db: Dag.Ledger, x: MessageID, y: MessageID, c: Color, d: Color)
    requires Dag.WellFormed(db) && db.Keys == {x, y} && x != y && Sets(db[x], c) && Sets(db[y], d) && c < d
    requires db[x].issuer == db[y].issuer && WeightOf(w, db[x].issuer) == 0
    requires db[x].sequenceNumber < db[y].sequenceNumber
    ensures Order(db, db.Keys, [x, y]) && OpinionAfter(w, n, db, [x, y]) == c
    ensures Order(db, db.Keys, [y, x]) && OpinionAfter(w, n, db, [y, x]) == d
    ensures !Determined(db, db.Keys)
  {
    TwoBooked(db, x, y, c, d);
    TwoBooked(db, y, x, d, c);
    assert {y, x} == {x, y};
    WeightlessOpinion(w, n, db, db.Keys, [x, y]);
    WeightlessOpinion(w, n, db, db.Keys, [y, x]);
    assert IsSmallest({c, d}, Smallest({c, d})) && IsSmallest({d}, Smallest({d}));
    SmallestDeterminedIff(db, db.Keys);
  }
}
