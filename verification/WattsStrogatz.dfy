/** The topology of the network: a ring lattice with randomly rewired edges (network/network.go). */
module WattsStrogatz {
  import opened Messages

  /** For every node the nodes that its edges lead to. */
  type Graph = map<int, set<int>>

  function Out(g: Graph, t: int): set<int> {
    if t in g then g[t] else {}
  }

  ghost predicate InRange(g: Graph, n: nat) {
    && (forall t :: t in g <==> 0 <= t < n)
    && forall t, h :: h in Out(g, t) ==> 0 <= h < n
  }

  /** No node is its own neighbour, and no edge exists in both directions. */
  ghost predicate Simple(g: Graph) {
    forall t, h :: h in Out(g, t) ==> h != t && t !in Out(g, h)
  }

  function Total(g: Graph, n: nat): nat {
    if n == 0 then 0 else Total(g, n - 1) + |Out(g, n - 1)|
  }

  ghost predicate SameDegrees(g: Graph, g': Graph) {
    forall t :: |Out(g, t)| == |Out(g', t)|
  }

  lemma {:induction false} SameTotal(g: Graph, g': Graph, n: nat)
    requires SameDegrees(g, g')
    ensures Total(g, n) == Total(g', n)
  {
    if n > 0 {
      SameTotal(g, g', n - 1);
    }
  }

  lemma {:induction false} TotalAfterChange(g: Graph, t: int, s: set<int>, n: nat)
    requires 0 <= t < n
    ensures Total(g[t := s], n) == Total(g, n) - |Out(g, t)| + |s|
  {
    if t == n - 1 {
      TotalOfOthers(g, t, s, n - 1);
    } else {
      TotalAfterChange(g, t, s, n - 1);
    }
  }

  lemma {:induction false} TotalOfOthers(g: Graph, t: int, s: set<int>, n: nat)
    requires n <= t
    ensures Total(g[t := s], n) == Total(g, n)
  {
    if n > 0 {
      TotalOfOthers(g, t, s, n - 1);
    }
  }

  // ----- the lattice -----

  /** Each node has edges to the next `k / 2` nodes around the ring. */
  ghost predicate IsLattice(g: Graph, n: nat, k: nat) {
    && InRange(g, n)
    && forall t, h :: 0 <= t < n ==> (h in Out(g, t) <==> exists d :: Step(n, t, d, h) && 1 <= d <= k / 2)
  }

  ghost predicate Step(n: nat, t: int, d: int, h: int) {
    0 < n && h == (t + d) % n
  }

  /** Steps of at most one round are told apart by where they lead. */
  lemma DifferentSteps(n: nat, t: int, d: int, e: int)
    requires 0 < n && 0 <= t < n && 0 <= d < e < d + n
    ensures (t + d) % n != (t + e) % n
  {
    var x, y := (t + d) / n, (t + e) / n;
    assert t + d == x * n + (t + d) % n && t + e == y * n + (t + e) % n;
    if (t + d) % n == (t + e) % n {
      assert (y - x) * n == e - d;
      BetweenMultiples(n, y - x);
    }
  }

  lemma BetweenMultiples(n: nat, z: int)
    requires 0 < n
    ensures z <= 0 ==> z * n <= 0
    ensures z >= 1 ==> z * n >= n
  {
  }

  /** The way there and the way back make a round. */
  lemma ThereAndBack(n: nat, t: int, d: int, e: int)
    requires 0 < n && 0 <= t < n && 1 <= d && 1 <= e
    requires t == ((t + d) % n + e) % n
    ensures d + e >= n
  {
    var h := (t + d) % n;
    var x, y := (t + d) / n, (h + e) / n;
    assert t + d == x * n + h && h + e == y * n + t;
    assert d + e == (x + y) * n;
    BetweenMultiples(n, x + y);
  }

  /** The lattice is a simple graph exactly when the mean degree is less than the number of nodes. */
  lemma LatticeIsSimpleIff(g: Graph, n: nat, k: nat)
    requires 0 < n && k % 2 == 0 && IsLattice(g, n, k)
    ensures Simple(g) <==> k < n
  {
    if k < n {
      SparseLattice(g, n, k);
    } else {
      DenseLattice(g, n, k);
    }
  }

  lemma SparseLattice(g: Graph, n: nat, k: nat)
    requires 0 < n && IsLattice(g, n, k) && k < n
    ensures Simple(g)
  {
    forall t, h | h in Out(g, t)
      ensures h != t && t !in Out(g, h)
    {
      var d :| Step(n, t, d, h) && 1 <= d <= k / 2;
      hide IsLattice;
      NoWayBack(n, k, t, d, h);
      if t in Out(g, h) {
        LatticeEdge(g, n, k, h, t);
      }
    }
  }

  lemma LatticeEdge(g: Graph, n: nat, k: nat, t: int, h: int)
    requires 0 < n && IsLattice(g, n, k)
    ensures h in Out(g, t) ==> 0 <= t < n && 0 <= h < n && exists d :: Step(n, t, d, h) && 1 <= d <= k / 2
    ensures 0 <= t < n && (exists d :: Step(n, t, d, h) && 1 <= d <= k / 2) ==> h in Out(g, t)
  {
  }

  lemma NoWayBack(n: nat, k: nat, t: int, d: int, h: int)
    requires 0 < n && 0 <= t < n && k < n && Step(n, t, d, h) && 1 <= d <= k / 2
    ensures h != t
    ensures forall e :: 1 <= e <= k / 2 ==> !Step(n, h, e, t)
  {
    DifferentSteps(n, t, 0, d);
    SmallMod(t, n);
    forall e | 1 <= e <= k / 2
      ensures !Step(n, h, e, t)
    {
      if Step(n, h, e, t) {
        ThereAndBack(n, t, d, e);
      }
    }
  }

  lemma SmallMod(x: int, n: nat)
    requires 0 <= x < n
    ensures x % n == x
    ensures (x + (n - x)) % n == 0
  {
  }

  lemma DenseLattice(g: Graph, n: nat, k: nat)
    requires 0 < n && k % 2 == 0 && IsLattice(g, n, k) && n <= k
    ensures !Simple(g)
  {
    var d := if n == 1 then 0 else n / 2;
    var e := n - d;
    SmallMod(d, n);
    assert Step(n, d, e, 0);
    LatticeEdge(g, n, k, d, 0);
    assert 0 in Out(g, d);
    if n > 1 {
      assert Step(n, 0, d, d);
      LatticeEdge(g, n, k, 0, d);
    }
  }

  method Lattice(nodeCount: nat, meanDegree: nat) returns (graph: Graph)
    ensures IsLattice(graph, nodeCount, meanDegree)
    ensures meanDegree / 2 <= nodeCount ==> Total(graph, nodeCount) == Times(nodeCount, meanDegree / 2)
  {
    graph := map[];
    hide HeadsOf, Times;
    NoTimes(meanDegree / 2);
    for nodeID := 0 to nodeCount
      invariant forall t :: t in graph <==> 0 <= t < nodeID
      invariant forall t :: 0 <= t < nodeID ==> HeadsOf(graph[t], nodeCount, t, meanDegree / 2)
      invariant meanDegree / 2 <= nodeCount ==> Total(graph, nodeID) == Times(nodeID, meanDegree / 2)
    {
      var edges := NextNodes(nodeCount, nodeID, meanDegree);
      TotalOfOthers(graph, nodeID, edges, nodeID);
      OneMoreTime(nodeID, meanDegree / 2);
      graph := graph[nodeID := edges];
    }
    HeadsMakeLattice(graph, nodeCount, meanDegree);
  }

  method NextNodes(nodeCount: nat, nodeID: nat, meanDegree: nat) returns (edges: set<int>)
    requires nodeID < nodeCount
    ensures HeadsOf(edges, nodeCount, nodeID, meanDegree / 2)
    ensures meanDegree / 2 <= nodeCount ==> |edges| == meanDegree / 2
  {
    edges := {};
    for j := nodeID + 1 to nodeID + meanDegree / 2 + 1
      invariant HeadsOf(edges, nodeCount, nodeID, j - nodeID - 1)
      invariant j - nodeID - 1 <= nodeCount ==> |edges| == j - nodeID - 1
    {
      OneMoreHead(edges, nodeCount, nodeID, j - nodeID);
      edges := edges + {j % nodeCount};
    }
  }

  function Times(x: nat, y: nat): nat {
    x * y
  }

  lemma NoTimes(y: nat)
    ensures Times(0, y) == 0
  {
  }

  lemma OneMoreTime(x: nat, y: nat)
    ensures Times(x + 1, y) == Times(x, y) + y
  {
  }

  lemma HeadsMakeLattice(g: Graph, n: nat, k: nat)
    requires forall t :: t in g <==> 0 <= t < n
    requires forall t :: 0 <= t < n ==> HeadsOf(g[t], n, t, k / 2)
    ensures IsLattice(g, n, k)
  {
  }

  ghost predicate HeadsOf(s: set<int>, n: nat, t: int, k: int) {
    forall h :: h in s <==> exists d :: Step(n, t, d, h) && 1 <= d <= k
  }

  lemma OneMoreHead(s: set<int>, n: nat, t: int, k: int)
    requires 0 < n && 0 <= t < n && 1 <= k && HeadsOf(s, n, t, k - 1)
    ensures HeadsOf(s + {(t + k) % n}, n, t, k)
    ensures k <= n ==> (t + k) % n !in s
  {
    var x := (t + k) % n;
    assert Step(n, t, k, x);
    forall h
      ensures h in s + {x} <==> exists d :: Step(n, t, d, h) && 1 <= d <= k
    {
      if d :| Step(n, t, d, h) && 1 <= d <= k {
        assert d == k || (Step(n, t, d, h) && 1 <= d <= k - 1);
      }
    }
    if k <= n && x in s {
      var d :| Step(n, t, d, x) && 1 <= d <= k - 1;
      DifferentSteps(n, t, d, k);
    }
  }

  // ----- rewiring -----

  /** What the random source still has to offer: coins for the edges and nodes to lead them to. */
  datatype Draws = Draws(coins: seq<real>, nodes: seq<nat>)
  {
    predicate InRange(n: nat) {
      forall i :: 0 <= i < |nodes| ==> nodes[i] < n
    }

    /** No coin asks for an edge to be rewired. */
    ghost predicate Still(randomness: real) {
      forall c :: c in coins ==> c >= randomness
    }
  }

  /** An edge of `tail` may lead to this node. */
  ghost predicate Acceptable(g: Graph, tail: int, newHead: int) {
    newHead != tail && tail !in Out(g, newHead) && newHead !in Out(g, tail)
  }

  /** The graph after an edge of `tail` was led to another node. */
  ghost function Rewired(g: Graph, tail: int, head: int, newHead: int): Graph {
    g[tail := Out(g, tail) - {head} + {newHead}]
  }

  /**
   Leading an existing edge to an acceptable node moves that edge and no other; it keeps all degrees, and keeps a simple
   graph simple.
   */
  lemma RewiringKeeps(g: Graph, n: nat, tail: int, head: int, newHead: int)
    requires InRange(g, n) && head in Out(g, tail) && 0 <= newHead < n && Acceptable(g, tail, newHead)
    ensures var g' := Rewired(g, tail, head, newHead);
      && InRange(g', n) && SameDegrees(g, g') && (Simple(g) ==> Simple(g'))
      && (forall t :: t != tail ==> Out(g', t) == Out(g, t))
      && newHead in Out(g', tail) && head !in Out(g', tail)
      && forall h :: h != head && h != newHead ==> (h in Out(g', tail) <==> h in Out(g, tail))
  {
    var edges, g' := Out(g, tail), Rewired(g, tail, head, newHead);
    assert |edges - {head} + {newHead}| == |edges|;
    forall t, h | h in Out(g', t)
      ensures 0 <= h < n && (h in Out(g, t) || (t == tail && h == newHead))
    {
      assert t != tail ==> h in Out(g, t);
      assert t == tail && h != newHead ==> h in Out(g, tail);
    }
  }

  /** One visit of an edge: the coin, and where the edge was led to if the coin asked for it. */
  datatype Visit = Visit(head: int, coin: real, newHead: int)

  /** The graph after some edges of `tail` were visited. */
  ghost function After(g: Graph, tail: int, randomness: real, visits: seq<Visit>): Graph {
    if visits == [] then g
    else
      var before, v := After(g, tail, randomness, visits[..|visits| - 1]), visits[|visits| - 1];
      if v.coin < randomness then Rewired(before, tail, v.head, v.newHead) else before
  }

  /** No visit from `start` on led an edge to `head` away. */
  ghost predicate Kept(randomness: real, visits: seq<Visit>, head: int, start: nat) {
    forall j :: start <= j < |visits| && visits[j].coin < randomness ==> visits[j].head != head
  }

  /** A visit led an edge to `head`, and none did away with it afterwards. */
  ghost predicate Drawn(randomness: real, visits: seq<Visit>, head: int, i: nat)
    requires i < |visits|
  {
    visits[i].coin < randomness && visits[i].newHead == head && Kept(randomness, visits, head, i + 1)
  }

  /** The heads after some visits: those before whose coins did not ask for rewiring, and those that were drawn. */
  ghost predicate IsHead(edges: set<int>, randomness: real, visits: seq<Visit>, head: int) {
    || (head in edges && Kept(randomness, visits, head, 0))
    || exists i :: 0 <= i < |visits| && Drawn(randomness, visits, head, i)
  }

  lemma {:induction false} HeadsAfter(g: Graph, tail: int, randomness: real, visits: seq<Visit>, head: int)
    requires Lawful(g, tail, randomness, visits)
    ensures head in Out(After(g, tail, randomness, visits), tail) <==> IsHead(Out(g, tail), randomness, visits, head)
    ensures forall t :: t != tail ==> Out(After(g, tail, randomness, visits), t) == Out(g, t)
  {
    if visits != [] {
      var front, v, last := visits[..|visits| - 1], visits[|visits| - 1], |visits| - 1;
      HeadsAfter(g, tail, randomness, front, head);
      var led := v.coin < randomness;
      forall i | 0 <= i <= last
        ensures Kept(randomness, visits, head, i) <==> Kept(randomness, front, head, i) && !(led && v.head == head)
      {
        if Kept(randomness, visits, head, i) {
          forall j | i <= j < |front| && front[j].coin < randomness
            ensures front[j].head != head
          {
            assert visits[j] == front[j];
          }
        }
      }
      forall i | 0 <= i < last
        ensures Drawn(randomness, visits, head, i)
           <==> Drawn(randomness, front, head, i) && !(led && v.head == head)
      {
        assert visits[i] == front[i];
      }
      assert Drawn(randomness, visits, head, last) <==> led && v.newHead == head;
    }
  }

  /** Each visit found its edge in the graph, and led it to an acceptable node if at all. */
  ghost predicate Lawful(g: Graph, tail: int, randomness: real, visits: seq<Visit>) {
    visits == [] || (
      var front, v := visits[..|visits| - 1], visits[|visits| - 1];
      var before := After(g, tail, randomness, front);
      && Lawful(g, tail, randomness, front) && v.head in Out(before, tail)
      && (v.coin < randomness ==> Acceptable(before, tail, v.newHead)))
  }

  /** The coins were tossed in order, one for each visit. */
  ghost predicate Tossed(visits: seq<Visit>, coins: seq<real>, rest: seq<real>) {
    && |coins| == |visits| + |rest|
    && (forall i :: 0 <= i < |visits| ==> visits[i].coin == coins[i])
    && rest == coins[|visits|..]
  }

  ghost predicate Visited(visits: seq<Visit>, head: int) {
    exists i :: 0 <= i < |visits| && visits[i].head == head
  }

  lemma {:induction false} OneMoreVisit(g: Graph, tail: int, randomness: real, visits: seq<Visit>, v: Visit)
    requires Lawful(g, tail, randomness, visits) && v.head in Out(After(g, tail, randomness, visits), tail)
    requires v.coin < randomness ==> Acceptable(After(g, tail, randomness, visits), tail, v.newHead)
    ensures Lawful(g, tail, randomness, visits + [v])
    ensures After(g, tail, randomness, visits + [v])
         == if v.coin < randomness then Rewired(After(g, tail, randomness, visits), tail, v.head, v.newHead)
            else After(g, tail, randomness, visits)
    ensures forall h :: Visited(visits + [v], h) <==> Visited(visits, h) || h == v.head
  {
    assert (visits + [v])[..|visits|] == visits;
    assert (visits + [v])[|visits|] == v;
    forall h | Visited(visits, h)
      ensures Visited(visits + [v], h)
    {
      var i :| 0 <= i < |visits| && visits[i].head == h;
      assert (visits + [v])[i].head == h;
    }
  }

  lemma OneMoreToss(visits: seq<Visit>, coins: seq<real>, rest: seq<real>, v: Visit)
    requires Tossed(visits, coins, rest) && rest != [] && v.coin == rest[0]
    ensures Tossed(visits + [v], coins, rest[1..])
  {
    assert rest[0] == coins[|visits|];
    assert rest[1..] == coins[|visits| + 1..];
  }

  /** With no coin that asks for rewiring nothing changes. */
  lemma {:induction false} StillUnchanged(g: Graph, tail: int, randomness: real, visits: seq<Visit>)
    requires forall i :: 0 <= i < |visits| ==> visits[i].coin >= randomness
    ensures After(g, tail, randomness, visits) == g
  {
    if visits != [] {
      StillUnchanged(g, tail, randomness, visits[..|visits| - 1]);
    }
  }

  /** Draws nodes until one is acceptable; the random source may run out before. */
  method DrawHead(g: Graph, n: nat, tail: int, draws: Draws) returns (found: bool, newHead: nat, rest: Draws)
    requires draws.InRange(n)
    ensures rest.InRange(n) && rest.coins == draws.coins
    ensures found ==> newHead < n && Acceptable(g, tail, newHead)
    ensures !found ==> rest.nodes == []
    ensures found <==> exists x :: x in draws.nodes && x != tail && tail !in Out(g, x) && x !in Out(g, tail)
    ensures found
       ==> exists i :: 0 <= i < |draws.nodes| && newHead == draws.nodes[i] && rest.nodes == draws.nodes[i + 1..]
                             && forall j :: 0 <= j < i ==> !Acceptable(g, tail, draws.nodes[j])
  {
    newHead, rest := 0, draws;
    ghost var skipped := 0;
    while rest.nodes != []
      invariant 0 <= skipped <= |draws.nodes| && rest == Draws(draws.coins, draws.nodes[skipped..])
      invariant forall i :: 0 <= i < skipped ==> !Acceptable(g, tail, draws.nodes[i])
      decreases |rest.nodes|
    {
      newHead := rest.nodes[0];
      assert newHead == draws.nodes[skipped];
      rest := Draws(rest.coins, rest.nodes[1..]);
      if newHead != tail && tail !in Out(g, newHead) && newHead !in Out(g, tail) {
        return true, newHead, rest;
      }
      skipped := skipped + 1;
    }
    found := false;
  }

  /** What rewiring may have done to a graph. */
  ghost predicate Keeps(n: nat, g: Graph, g': Graph) {
    InRange(g', n) && SameDegrees(g, g') && (Simple(g) ==> Simple(g'))
  }

  /** Tosses a coin for an edge and draws a node to lead it to, if the coin asks for it. */
  method VisitEdge(g: Graph, n: nat, tail: int, head: int, randomness: real, draws: Draws)
    returns (enough: bool, v: Visit, rest: Draws)
    requires draws.InRange(n) && draws.coins != []
    ensures rest.InRange(n) && rest.coins == draws.coins[1..] && v.head == head && v.coin == draws.coins[0]
    ensures enough && v.coin < randomness ==> 0 <= v.newHead < n && Acceptable(g, tail, v.newHead)
    ensures !enough ==> v.coin < randomness && rest.nodes == []
  {
    hide Acceptable;
    v := Visit(head, draws.coins[0], head);
    rest := Draws(draws.coins[1..], draws.nodes);
    enough := true;
    if v.coin < randomness {
      var newHead;
      enough, newHead, rest := DrawHead(g, n, tail, rest);
      v := Visit(head, draws.coins[0], newHead);
    }
  }

  /** Rewires the edges of one node. Edges come in any order; an edge that was added meanwhile may come too or not. */
  method RewireNode(g: Graph, n: nat, tail: int, randomness: real, draws: Draws)
    returns (enough: bool, r: Graph, rest: Draws, ghost visits: seq<Visit>)
    requires InRange(g, n) && draws.InRange(n)
    ensures Keeps(n, g, r) && rest.InRange(n)
    ensures r == After(g, tail, randomness, visits) && Lawful(g, tail, randomness, visits)
    ensures forall h :: h in Out(r, tail) <==> IsHead(Out(g, tail), randomness, visits, h)
    ensures forall t :: t != tail ==> Out(r, t) == Out(g, t)
    ensures enough ==> Tossed(visits, draws.coins, rest.coins) && forall h :: h in Out(g, tail) ==> Visited(visits, h)
    ensures draws.Still(randomness) ==> r == g && rest.Still(randomness)
    ensures !enough ==> rest.coins == [] || rest.nodes == []
  {
    r, rest, visits := g, draws, [];
    var todo := Out(g, tail);
    while todo != {}
      invariant todo <= Out(r, tail) && Keeps(n, g, r) && rest.InRange(n)
      invariant r == After(g, tail, randomness, visits) && Lawful(g, tail, randomness, visits)
      invariant Tossed(visits, draws.coins, rest.coins)
      invariant forall h :: h in Out(g, tail) ==> h in todo || Visited(visits, h)
      decreases |rest.coins|
    {
      hide Tossed, Visited, Acceptable, After, Lawful, Draws.InRange, Draws.Still, Simple, SameDegrees;
      StillSoFar(g, tail, randomness, visits, draws, rest);
      if rest.coins == [] {
        AllHeadsAfter(g, tail, randomness, visits);
        return false, r, rest, visits;
      }
      Inhabited(todo);
      var head :| head in todo;
      ghost var coins := rest.coins;
      var v;
      enough, v, rest := VisitEdge(r, n, tail, head, randomness, rest);
      if !enough {
        StillTossesHeads(draws, randomness, visits, coins);
        AllHeadsAfter(g, tail, randomness, visits);
        return false, r, rest, visits;
      }
      OneMoreVisit(g, tail, randomness, visits, v);
      OneMoreToss(visits, draws.coins, coins, v);
      visits := visits + [v];
      todo := todo - {head};
      if v.coin < randomness {
        RewiringKeeps(r, n, tail, head, v.newHead);
        r := r[tail := Out(r, tail) - {head} + {v.newHead}];
        if * {
          todo := todo + {v.newHead};
        }
      }
    }
    StillSoFar(g, tail, randomness, visits, draws, rest);
    AllHeadsAfter(g, tail, randomness, visits);
    enough := true;
  }

  lemma {:induction false} AllHeadsAfter(g: Graph, tail: int, randomness: real, visits: seq<Visit>)
    requires Lawful(g, tail, randomness, visits)
    ensures var r := After(g, tail, randomness, visits);
      && (forall h :: h in Out(r, tail) <==> IsHead(Out(g, tail), randomness, visits, h))
      && forall t :: t != tail ==> Out(r, t) == Out(g, t)
  {
    forall h
      ensures h in Out(After(g, tail, randomness, visits), tail) <==> IsHead(Out(g, tail), randomness, visits, h)
    {
      HeadsAfter(g, tail, randomness, visits, h);
    }
    HeadsAfter(g, tail, randomness, visits, 0);
  }

  lemma {:induction false} StillSoFar(
    g: Graph, tail: int, randomness: real, visits: seq<Visit>, draws: Draws, rest: Draws)
    requires Tossed(visits, draws.coins, rest.coins)
    ensures draws.Still(randomness) ==> After(g, tail, randomness, visits) == g && rest.Still(randomness)
  {
    if draws.Still(randomness) {
      forall i | 0 <= i < |visits|
        ensures visits[i].coin >= randomness
      {
        assert draws.coins[i] in draws.coins;
      }
      StillUnchanged(g, tail, randomness, visits);
      forall c | c in rest.coins
        ensures c in draws.coins
      {
        var i :| 0 <= i < |rest.coins| && rest.coins[i] == c;
        assert draws.coins[|visits| + i] == c;
      }
    }
  }

  lemma StillTossesHeads(draws: Draws, randomness: real, visits: seq<Visit>, coins: seq<real>)
    requires Tossed(visits, draws.coins, coins) && coins != [] && coins[0] < randomness
    ensures !draws.Still(randomness)
  {
    assert coins[0] == draws.coins[|visits|];
    assert coins[0] in draws.coins;
  }

  /** All visits to the edges of one node. */
  datatype Pass = Pass(tail: int, visits: seq<Visit>)

  ghost function AfterAll(g: Graph, randomness: real, passes: seq<Pass>): Graph {
    if passes == [] then g
    else
      var last := passes[|passes| - 1];
      After(AfterAll(g, randomness, passes[..|passes| - 1]), last.tail, randomness, last.visits)
  }

  function AllVisits(passes: seq<Pass>): seq<Visit> {
    if passes == [] then [] else AllVisits(passes[..|passes| - 1]) + passes[|passes| - 1].visits
  }

  /** Every edge that the graph had when the turn of its node came was visited. */
  ghost predicate Thorough(g: Graph, p: Pass) {
    forall h :: h in Out(g, p.tail) ==> Visited(p.visits, h)
  }

  /** Each node had one turn, and was dealt with lawfully and thoroughly. */
  ghost predicate LawfulAll(g: Graph, randomness: real, passes: seq<Pass>) {
    passes == [] || (
      var front, last := passes[..|passes| - 1], passes[|passes| - 1];
      var before := AfterAll(g, randomness, front);
      && LawfulAll(g, randomness, front) && Lawful(before, last.tail, randomness, last.visits) && Thorough(before, last)
      && !HadTurn(front, last.tail))
  }

  ghost predicate HadTurn(passes: seq<Pass>, tail: int) {
    exists i :: 0 <= i < |passes| && passes[i].tail == tail
  }

  lemma {:induction false} OneMorePass(g: Graph, randomness: real, passes: seq<Pass>, p: Pass)
    requires LawfulAll(g, randomness, passes) && !HadTurn(passes, p.tail)
    requires Lawful(AfterAll(g, randomness, passes), p.tail, randomness, p.visits)
    requires Thorough(AfterAll(g, randomness, passes), p)
    ensures LawfulAll(g, randomness, passes + [p]) && AllVisits(passes + [p]) == AllVisits(passes) + p.visits
    ensures AfterAll(g, randomness, passes + [p])
       == After(AfterAll(g, randomness, passes), p.tail, randomness, p.visits)
    ensures forall t :: HadTurn(passes + [p], t) <==> HadTurn(passes, t) || t == p.tail
  {
    assert (passes + [p])[..|passes|] == passes;
    assert (passes + [p])[|passes|] == p;
    forall t | HadTurn(passes, t)
      ensures HadTurn(passes + [p], t)
    {
      var i :| 0 <= i < |passes| && passes[i].tail == t;
      assert (passes + [p])[i].tail == t;
    }
  }

  /** The heads of the node with the `i`-th turn are those that its visits decided on. */
  ghost predicate HeadsDecided(g: Graph, randomness: real, passes: seq<Pass>, r: Graph, i: nat)
    requires i < |passes|
  {
    forall h :: h in Out(r, passes[i].tail) <==> IsHead(Out(g, passes[i].tail), randomness, passes[i].visits, h)
  }

  lemma {:induction false} HeadsAfterAll(g: Graph, randomness: real, passes: seq<Pass>)
    requires LawfulAll(g, randomness, passes)
    ensures forall i :: 0 <= i < |passes| ==> HeadsDecided(g, randomness, passes, AfterAll(g, randomness, passes), i)
    ensures forall t :: !HadTurn(passes, t) ==> Out(AfterAll(g, randomness, passes), t) == Out(g, t)
  {
    if passes != [] {
      var front, last := passes[..|passes| - 1], passes[|passes| - 1];
      var before, r := AfterAll(g, randomness, front), AfterAll(g, randomness, passes);
      HeadsAfterAll(g, randomness, front);
      AllHeadsAfter(before, last.tail, randomness, last.visits);
      hide IsHead, Lawful, After;
      forall i | 0 <= i < |front|
        ensures passes[i] == front[i] && passes[i].tail != last.tail && HeadsDecided(g, randomness, passes, r, i)
      {
        assert HadTurn(front, front[i].tail);
        assert HeadsDecided(g, randomness, front, before, i);
      }
      forall t | !HadTurn(passes, t)
        ensures Out(r, t) == Out(g, t)
      {
        assert passes[|passes| - 1].tail != t;
        forall i | 0 <= i < |front|
          ensures front[i].tail != t
        {
          assert passes[i] == front[i];
        }
      }
      assert HeadsDecided(g, randomness, passes, r, |passes| - 1);
    }
  }

  lemma MoreTosses(a: seq<Visit>, b: seq<Visit>, coins: seq<real>, some: seq<real>, rest: seq<real>)
    requires Tossed(a, coins, some) && Tossed(b, some, rest)
    ensures Tossed(a + b, coins, rest)
  {
    assert forall i :: 0 <= i < |some| ==> some[i] == coins[|a| + i];
    assert rest == coins[|a + b|..];
  }

  /** Rewires all nodes, in any order. */
  method Rewire(g: Graph, n: nat, randomness: real, draws: Draws)
    returns (enough: bool, r: Graph, rest: Draws, ghost passes: seq<Pass>)
    requires InRange(g, n) && draws.InRange(n)
    ensures Keeps(n, g, r) && (draws.Still(randomness) ==> r == g)
    ensures enough ==>
      && r == AfterAll(g, randomness, passes) && LawfulAll(g, randomness, passes)
      && (forall t :: t in g ==> HadTurn(passes, t)) && Tossed(AllVisits(passes), draws.coins, rest.coins)
      && forall i :: 0 <= i < |passes| ==> HeadsDecided(g, randomness, passes, r, i)
    ensures !enough ==> rest.coins == [] || rest.nodes == []
  {
    r, enough, rest, passes := g, true, draws, [];
    var todo := g.Keys;
    while todo != {} && enough
      invariant Keeps(n, g, r) && rest.InRange(n) && (draws.Still(randomness) ==> r == g && rest.Still(randomness))
      invariant enough ==> r == AfterAll(g, randomness, passes) && LawfulAll(g, randomness, passes)
      invariant enough ==> Tossed(AllVisits(passes), draws.coins, rest.coins)
      invariant forall t :: t in g ==> (t in todo <==> !HadTurn(passes, t)) || !enough
      invariant !enough ==> rest.coins == [] || rest.nodes == []
      decreases todo
    {
      hide After, Lawful, Tossed, Draws.InRange, Draws.Still, Simple, AfterAll, AllVisits, LawfulAll, HadTurn;
      Inhabited(todo);
      var tail :| tail in todo;
      todo := todo - {tail};
      ghost var was, coins, visits := r, rest.coins, [];
      enough, r, rest, visits := RewireNode(r, n, tail, randomness, rest);
      if enough {
        OneMorePass(g, randomness, passes, Pass(tail, visits));
        MoreTosses(AllVisits(passes), visits, draws.coins, coins, rest.coins);
        passes := passes + [Pass(tail, visits)];
      }
    }
    if enough {
      hide After, Lawful, Tossed, Draws.InRange, Draws.Still, Simple, AfterAll, AllVisits, LawfulAll, HadTurn,
        HeadsDecided;
      HeadsAfterAll(g, randomness, passes);
    }
  }

  // ----- connecting -----

  /** Two peers are neighbours when an edge leads from one to the other. */
  ghost predicate Connected(g: Graph, neighbors: Graph) {
    forall a, b :: b in Out(neighbors, a) <==> b in Out(g, a) || a in Out(g, b)
  }

  ghost predicate Symmetric(neighbors: Graph) {
    forall a, b :: b in Out(neighbors, a) <==> a in Out(neighbors, b)
  }

  function WithEdge(g: Graph, a: int, b: int): Graph {
    g[a := Out(g, a) + {b}]
  }

  /** `laid` has the edges of the nodes in `done`, and those from `tail` to `heads`. */
  ghost predicate LaidSoFar(g: Graph, laid: Graph, done: set<int>, tail: int, heads: set<int>) {
    forall a :: Out(laid, a) == if a in done then Out(g, a) else if a == tail then heads else {}
  }

  /** Laying an edge both ways adds two neighbours, unless they were neighbours before. */
  lemma {:induction false} OneMoreEdge(laid: Graph, neighbors: Graph, n: nat, a: int, b: int)
    requires InRange(laid, n) && InRange(neighbors, n) && Connected(laid, neighbors) && 0 <= a < n && 0 <= b < n
    ensures var laid', neighbors' := WithEdge(laid, a, b), WithEdge(WithEdge(neighbors, a, b), b, a);
      && InRange(laid', n) && InRange(neighbors', n) && Connected(laid', neighbors')
      && (a != b && b !in Out(laid, a) && a !in Out(laid, b) ==>
           Total(laid', n) == Total(laid, n) + 1 && Total(neighbors', n) == Total(neighbors, n) + 2)
  {
    var laid', one := WithEdge(laid, a, b), WithEdge(neighbors, a, b);
    var neighbors' := WithEdge(one, b, a);
    EdgeInRange(laid, n, a, b);
    EdgeInRange(neighbors, n, a, b);
    EdgeInRange(one, n, b, a);
    hide Total, InRange, WithEdge;
    if a != b && b !in Out(laid, a) && a !in Out(laid, b) {
      NewEdgeCounts(laid, n, a, b);
      NewEdgeCounts(neighbors, n, a, b);
      NewEdgeCounts(one, n, b, a);
    }
    StillConnected(laid, neighbors, laid', neighbors', a, b);
  }

  lemma StillConnected(laid: Graph, neighbors: Graph, laid': Graph, neighbors': Graph, a: int, b: int)
    requires Connected(laid, neighbors)
    requires forall x, y :: y in Out(laid', x) <==> y in Out(laid, x) || (x == a && y == b)
    requires forall x, y ::
      y in Out(neighbors', x) <==> y in Out(neighbors, x) || (x == a && y == b) || (x == b && y == a)
    ensures Connected(laid', neighbors')
  {
    hide Out;
    forall x, y
      ensures y in Out(neighbors', x) <==> y in Out(laid', x) || x in Out(laid', y)
    {
      assert y in Out(neighbors, x) <==> y in Out(laid, x) || x in Out(laid, y);
    }
  }

  lemma {:induction false} NewEdgeCounts(g: Graph, n: nat, a: int, b: int)
    requires 0 <= a < n && b !in Out(g, a)
    ensures Total(WithEdge(g, a, b), n) == Total(g, n) + 1
  {
    TotalAfterChange(g, a, Out(g, a) + {b}, n);
  }

  lemma EdgeInRange(g: Graph, n: nat, a: int, b: int)
    requires InRange(g, n) && 0 <= a < n && 0 <= b < n
    ensures InRange(WithEdge(g, a, b), n)
    ensures forall x, y :: y in Out(WithEdge(g, a, b), x) <==> y in Out(g, x) || (x == a && y == b)
  {
    var g' := WithEdge(g, a, b);
    forall x, y
      ensures y in Out(g', x) <==> y in Out(g, x) || (x == a && y == b)
      ensures y in Out(g', x) ==> 0 <= y < n
    {
      assert Out(g', x) == if x == a then Out(g, x) + {b} else Out(g, x);
    }
  }

  /** Connects the peers along the edges, in any order. */
  method Connect(g: Graph, n: nat) returns (neighbors: Graph)
    requires InRange(g, n)
    ensures InRange(neighbors, n) && Connected(g, neighbors)
    ensures Simple(g) ==> Total(neighbors, n) == 2 * Total(g, n)
  {
    hide InRange, Connected, Simple, Total, LaidSoFar;
    neighbors := map a | a in g :: {};
    ghost var laid, done: set<int> := neighbors, {};
    EmptyIsLaid(g, n, neighbors);
    var todo := g.Keys;
    while todo != {}
      invariant todo <= g.Keys && done == g.Keys - todo && LaidSoFar(g, laid, done, -1, {})
      invariant InRange(laid, n) && InRange(neighbors, n) && Connected(laid, neighbors)
      invariant Simple(g) ==> Total(neighbors, n) == 2 * Total(laid, n)
    {
      Inhabited(todo);
      var source :| source in todo;
      todo := todo - {source};
      neighbors, laid := ConnectNode(g, n, source, neighbors, laid, done);
      done := done + {source};
    }
    assert done == g.Keys;
    AllLaid(g, laid, n, neighbors);
  }

  method ConnectNode(g: Graph, n: nat, source: int, neighbors: Graph, ghost laid: Graph, ghost done: set<int>)
    returns (r: Graph, ghost laid': Graph)
    requires InRange(g, n) && source in g && source !in done && LaidSoFar(g, laid, done, -1, {})
    requires InRange(laid, n) && InRange(neighbors, n) && Connected(laid, neighbors)
    requires Simple(g) ==> Total(neighbors, n) == 2 * Total(laid, n)
    ensures LaidSoFar(g, laid', done + {source}, -1, {})
    ensures InRange(laid', n) && InRange(r, n) && Connected(laid', r)
    ensures Simple(g) ==> Total(r, n) == 2 * Total(laid', n)
  {
    hide Connected, Simple;
    r, laid' := neighbors, laid;
    var todo := Out(g, source);
    assert Out(g, source) - todo == {};
    while todo != {}
      invariant todo <= Out(g, source) && LaidSoFar(g, laid', done, source, Out(g, source) - todo)
      invariant InRange(laid', n) && InRange(r, n) && Connected(laid', r)
      invariant Simple(g) ==> Total(r, n) == 2 * Total(laid', n)
    {
      Inhabited(todo);
      var target :| target in todo;
      OneMoreEdge(laid', r, n, source, target);
      OneMoreLaid(g, laid', done, source, todo, target);
      r := WithEdge(WithEdge(r, source, target), target, source);
      laid' := WithEdge(laid', source, target);
      todo := todo - {target};
    }
    assert Out(g, source) - todo == Out(g, source);
  }

  lemma {:induction false} EmptyIsLaid(g: Graph, n: nat, neighbors: Graph)
    requires InRange(g, n) && neighbors == map a | a in g :: {}
    ensures InRange(neighbors, n) && Connected(neighbors, neighbors) && Total(neighbors, n) == 0
    ensures LaidSoFar(g, neighbors, {}, -1, {})
  {
    NothingLaid(neighbors, n);
  }

  lemma {:induction false} NothingLaid(g: Graph, n: nat)
    requires (forall t :: t in g <==> 0 <= t < n) && forall t :: t in g ==> g[t] == {}
    ensures InRange(g, n) && Connected(g, g) && Total(g, n) == 0
    ensures forall whole: Graph :: LaidSoFar(whole, g, {}, -1, {})
  {
    TotalOfNothing(g, n);
  }

  lemma {:induction false} TotalOfNothing(g: Graph, n: nat)
    requires forall t :: Out(g, t) == {}
    ensures Total(g, n) == 0
  {
    if n > 0 {
      TotalOfNothing(g, n - 1);
    }
  }

  lemma OneMoreLaid(g: Graph, laid: Graph, done: set<int>, source: int, todo: set<int>, target: int)
    requires source !in done && LaidSoFar(g, laid, done, source, Out(g, source) - todo)
    requires target in todo && todo <= Out(g, source)
    ensures LaidSoFar(g, WithEdge(laid, source, target), done, source, Out(g, source) - (todo - {target}))
    ensures target !in Out(laid, source)
    ensures Simple(g) ==> source != target && source !in Out(laid, target)
  {
    var laid' := WithEdge(laid, source, target);
    assert Out(g, source) - todo + {target} == Out(g, source) - (todo - {target});
    forall a
      ensures Out(laid', a)
         == if a in done then Out(g, a) else if a == source then Out(g, source) - (todo - {target}) else {}
    {
      assert Out(laid', a) == if a == source then Out(laid, a) + {target} else Out(laid, a);
    }
    assert source in Out(laid, target) ==> source in Out(g, target);
  }

  lemma {:induction false} AllLaid(g: Graph, laid: Graph, n: nat, neighbors: Graph)
    requires InRange(g, n) && LaidSoFar(g, laid, g.Keys, -1, {}) && Connected(laid, neighbors)
    ensures Connected(g, neighbors) && Total(laid, n) == Total(g, n)
  {
    forall a
      ensures Out(laid, a) == Out(g, a)
    {
    }
    SameTotal(laid, g, n);
    forall a, b
      ensures b in Out(neighbors, a) <==> b in Out(g, a) || a in Out(g, b)
    {
      assert Out(laid, a) == Out(g, a) && Out(laid, b) == Out(g, b);
    }
  }

  // ----- the whole topology -----

  /** How setting up the topology ends: it rejects an odd mean degree, and it may draw forever. */
  datatype Topology = OddDegree | OutOfDraws | Peered(neighbors: Graph)

  /** What the topology promises of a mean degree below the number of nodes. */
  ghost predicate Proper(neighbors: Graph, n: nat, k: nat) {
    && InRange(neighbors, n) && Symmetric(neighbors) && (forall a :: a !in Out(neighbors, a))
    && Total(neighbors, n) == Times(n, k)
  }

  lemma TwiceHalf(n: nat, k: nat)
    requires k % 2 == 0
    ensures 2 * Times(n, k / 2) == Times(n, k)
  {
    assert k == 2 * (k / 2);
  }

  /** Neighbours are symmetric, nobody is its own, and degrees total `n * k`, whatever was drawn. */
  method Peer(nodeCount: nat, meanDegree: nat, randomness: real, draws: Draws)
    returns (topology: Topology, rest: Draws, ghost lattice: Graph, ghost passes: seq<Pass>, ghost rewired: Graph)
    requires draws.InRange(nodeCount)
    ensures topology == OddDegree <==> meanDegree % 2 != 0
    ensures topology.OutOfDraws? ==> rest.coins == [] || rest.nodes == []
    ensures topology.Peered? ==>
      && IsLattice(lattice, nodeCount, meanDegree) && LawfulAll(lattice, randomness, passes)
      && (forall t :: 0 <= t < nodeCount ==> HadTurn(passes, t)) && Tossed(AllVisits(passes), draws.coins, rest.coins)
      && (forall i :: 0 <= i < |passes| ==> HeadsDecided(lattice, randomness, passes, rewired, i))
      && Connected(rewired, topology.neighbors) && Symmetric(topology.neighbors)
    ensures topology.Peered? && meanDegree < nodeCount ==> Proper(topology.neighbors, nodeCount, meanDegree)
  {
    hide After, Lawful, Tossed, AfterAll, AllVisits, LawfulAll, HadTurn, IsLattice, Times, Total, Draws.InRange,
      HeadsDecided;
    rest, lattice, passes, rewired := draws, map[], [], map[];
    if meanDegree % 2 != 0 {
      topology := OddDegree;
      return;
    }
    var graph := Lattice(nodeCount, meanDegree);
    lattice := graph;
    LatticeInRange(graph, nodeCount, meanDegree);
    var enough;
    enough, graph, rest, passes := Rewire(graph, nodeCount, randomness, draws);
    if !enough {
      topology := OutOfDraws;
      return;
    }
    rewired := graph;
    var neighbors := Connect(graph, nodeCount);
    if meanDegree < nodeCount {
      LatticeIsSimpleIff(lattice, nodeCount, meanDegree);
      SameTotal(lattice, graph, nodeCount);
      TwiceHalf(nodeCount, meanDegree);
      ProperTopology(graph, neighbors, nodeCount, meanDegree);
    }
    topology := Peered(neighbors);
  }

  lemma LatticeInRange(g: Graph, n: nat, k: nat)
    requires IsLattice(g, n, k)
    ensures InRange(g, n) && forall t :: t in g <==> 0 <= t < n
  {
  }

  lemma {:induction false} ProperTopology(g: Graph, neighbors: Graph, n: nat, k: nat)
    requires Simple(g) && InRange(neighbors, n) && Connected(g, neighbors) && Total(neighbors, n) == Times(n, k)
    ensures Proper(neighbors, n, k)
  {
    hide Out;
    forall a, b
      ensures b in Out(neighbors, a) <==> a in Out(neighbors, b)
    {
      assert b in Out(neighbors, a) <==> b in Out(g, a) || a in Out(g, b);
    }
    forall a
      ensures a !in Out(neighbors, a)
    {
      assert a in Out(neighbors, a) <==> a in Out(g, a) || a in Out(g, a);
    }
  }
}
