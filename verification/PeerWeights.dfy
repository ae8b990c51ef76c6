/** Consensus weights of the peers (network/consensus_weight.go) and sums of them over sets of peers. */
module PeerWeights {
  import opened Messages

  type Weights = map<PeerID, nat>

  const TWO_TO_64: nat := 0x1_0000_0000_0000_0000

  /** A peer without an entry weighs nothing. */
  function WeightOf(w: Weights, p: PeerID): nat {
    if p in w then w[p] else 0
  }

  /** The summed weight of the peers of `s` with an identity below `n`. */
  ghost function Sum(w: Weights, s: set<PeerID>, n: nat): nat {
    if n == 0 then 0 else Sum(w, s, n - 1) + if n - 1 in s then WeightOf(w, n - 1) else 0
  }

  lemma {:induction false} SumInsert(w: Weights, s: set<PeerID>, p: PeerID, n: nat)
    requires 0 <= p < n && p !in s
    ensures Sum(w, s + {p}, n) == Sum(w, s, n) + WeightOf(w, p)
  {
    if p < n - 1 {
      SumInsert(w, s, p, n - 1);
    } else {
      SumSame(w, w, s + {p}, s, n - 1);
    }
  }

  lemma {:induction false} SumSame(w: Weights, w': Weights, s: set<PeerID>, t: set<PeerID>, n: nat)
    requires forall p :: 0 <= p < n ==> (p in s <==> p in t)
    requires forall p :: 0 <= p < n && p in s ==> WeightOf(w, p) == WeightOf(w', p)
    ensures Sum(w, s, n) == Sum(w', t, n)
  {
    if n > 0 {
      SumSame(w, w', s, t, n - 1);
    }
  }

  lemma {:induction false} SumOfNone(w: Weights, s: set<PeerID>, n: nat)
    requires forall p :: 0 <= p < n && p in s ==> WeightOf(w, p) == 0
    ensures Sum(w, s, n) == 0
  {
    if n > 0 {
      SumOfNone(w, s, n - 1);
    }
  }

  /** What 64 bits keep of a number. */
  function Wrap(x: int): nat {
    x % TWO_TO_64
  }

  /** Adding and taking away in 64 bits. */
  lemma Wraps(x: int, y: int)
    ensures Wrap(Wrap(x) + y) == Wrap(x + y) && Wrap(Wrap(x) - y) == Wrap(x - y)
  {
  }

  /** Inclusion and exclusion: what two sets weigh together, what they share counted twice. */
  lemma {:induction false} SumUnion(w: Weights, s: set<PeerID>, t: set<PeerID>, n: nat)
    ensures Sum(w, s, n) + Sum(w, t, n) == Sum(w, s + t, n) + Sum(w, s * t, n)
  {
    if n > 0 {
      SumUnion(w, s, t, n - 1);
    }
  }

  lemma {:induction false} SumMonotone(w: Weights, s: set<PeerID>, t: set<PeerID>, n: nat)
    requires forall p :: 0 <= p < n && p in s ==> p in t
    ensures Sum(w, s, n) <= Sum(w, t, n)
  {
    if n > 0 {
      SumMonotone(w, s, t, n - 1);
    }
  }

  /** No set of peers weighs more than all peers in the table. */
  lemma {:induction false} SumWithinTotal(w: Weights, s: set<PeerID>, n: nat)
    ensures Sum(w, s, n) <= Sum(w, w.Keys, n)
  {
    if n > 0 {
      SumWithinTotal(w, s, n - 1);
    }
  }

  /** A positive sum has a member with positive weight. */
  lemma {:induction false} SumWitness(w: Weights, s: set<PeerID>, n: nat) returns (p: PeerID)
    requires Sum(w, s, n) > 0
    ensures 0 <= p < n && p in s && WeightOf(w, p) > 0
  {
    if n - 1 in s && WeightOf(w, n - 1) > 0 {
      p := n - 1;
    } else {
      p := SumWitness(w, s, n - 1);
    }
  }

  lemma {:induction false} SumMember(w: Weights, s: set<PeerID>, p: PeerID, n: nat)
    requires 0 <= p < n && p in s
    ensures WeightOf(w, p) <= Sum(w, s, n)
  {
    if p < n - 1 {
      SumMember(w, s, p, n - 1);
    }
  }

  /** The weight table with its running total, which every confirmation threshold is compared with. */
  class ConsensusWeightDistribution {
    const nodesCount: nat
    var weights: Weights
    var totalWeight: nat
    var largestWeight: nat

    /** The total is exact in 64 bits; the largest weight is only an upper bound. */
    ghost predicate Valid()
      reads this
    {
      && (forall p :: p in weights ==> 0 <= p < nodesCount && weights[p] < TWO_TO_64)
      && totalWeight == Wrap(Sum(weights, weights.Keys, nodesCount))
      && (forall p :: p in weights ==> weights[p] <= largestWeight)
    }

    constructor (nodesCount: nat)
      ensures Valid() && weights == map[] && largestWeight == 0 && this.nodesCount == nodesCount
    {
      this.nodesCount := nodesCount;
      weights, totalWeight, largestWeight := map[], 0, 0;
      new;
      SumOfNone(map[], weights.Keys, nodesCount);
    }

    method SetWeight(peerID: PeerID, weight: nat)
      requires Valid()
      requires 0 <= peerID < nodesCount && weight < TWO_TO_64
      modifies this
      ensures Valid() && weights == old(weights)[peerID := weight]
      ensures largestWeight == LargestAfter(old(weights), old(largestWeight), peerID, weight)
    {
      hide Wrap;
      ghost var before := weights;
      ghost var others := Sum(weights, weights.Keys - {peerID}, nodesCount);
      if peerID in weights {
        var existingWeight := weights[peerID];
        SumInsert(before, before.Keys - {peerID}, peerID, nodesCount);
        assert before.Keys - {peerID} + {peerID} == before.Keys;
        Wraps(others + existingWeight, existingWeight);
        totalWeight := Wrap(totalWeight - existingWeight);
        if largestWeight == existingWeight {
          RescanForLargestWeight();
        }
      } else {
        assert before.Keys - {peerID} == before.Keys;
      }
      assert totalWeight == Wrap(others);
      weights := weights[peerID := weight];
      Wraps(others, weight);
      totalWeight := Wrap(totalWeight + weight);
      SumSame(before, weights, before.Keys - {peerID}, weights.Keys - {peerID}, nodesCount);
      SumInsert(weights, weights.Keys - {peerID}, peerID, nodesCount);
      assert weights.Keys - {peerID} + {peerID} == weights.Keys;
      if weight > largestWeight {
        largestWeight := weight;
      }
    }

    method RescanForLargestWeight()
      modifies this`largestWeight
      ensures largestWeight == Largest(weights)
    {
      largestWeight := 0;
      var rest := weights.Keys;
      while rest != {}
        invariant rest <= weights.Keys
        invariant forall p :: p in weights && p !in rest ==> weights[p] <= largestWeight
        invariant largestWeight == 0 || exists p :: p in weights && weights[p] == largestWeight
      {
        Inhabited(rest);
        var p :| p in rest;
        if weights[p] > largestWeight {
          largestWeight := weights[p];
        }
        rest := rest - {p};
      }
    }
  }

  /** Weights that fit 64 bits together do not wrap the running total. */
  lemma TotalIsExact(d: ConsensusWeightDistribution)
    requires d.Valid() && Sum(d.weights, d.weights.Keys, d.nodesCount) < TWO_TO_64
    ensures d.totalWeight == Sum(d.weights, d.weights.Keys, d.nodesCount)
  {
  }

  ghost predicate IsLargest(w: Weights, x: nat) {
    (forall p :: p in w ==> w[p] <= x) && (x == 0 || exists p :: p in w && w[p] == x)
  }

  ghost function Largest(w: Weights): (x: nat)
    ensures IsLargest(w, x)
  {
    LargestExists(w);
    var x :| IsLargest(w, x);
    x
  }

  lemma {:induction false} LargestExists(w: Weights)
    ensures exists x: nat :: IsLargest(w, x)
    decreases w.Keys
  {
    if w == map[] {
      assert IsLargest(w, 0);
    } else {
      Inhabited(w.Keys);
      var p :| p in w.Keys;
      LargestExists(w - {p});
      var x: nat :| IsLargest(w - {p}, x);
      assert forall q :: q in w ==> q == p || q in w - {p};
      assert IsLargest(w, if w[p] > x then w[p] else x);
    }
  }

  /** What `SetWeight` leaves in `largestWeight`: the rescan still sees the weight that is overwritten later. */
  ghost function LargestAfter(before: Weights, largest: nat, p: PeerID, weight: nat): nat {
    var rescanned := if p in before && largest == before[p] then Largest(before) else largest;
    if weight > rescanned then weight else rescanned
  }

  /** Exactly when an exact largest weight stays exact: not when the only heaviest peer is made lighter. */
  lemma LargestStaysExact(w: Weights, p: PeerID, weight: nat)
    ensures IsLargest(w[p := weight], LargestAfter(w, Largest(w), p, weight))
       <==> !(p in w && w[p] == Largest(w) && weight < w[p] && forall q :: q in w && q != p ==> w[q] < w[p])
  {
    var x, y := Largest(w), LargestAfter(w, Largest(w), p, weight);
    var w' := w[p := weight];
    assert y == if weight > x then weight else x;
    assert p in w' && w'[p] == weight;
    assert forall q :: q in w && q != p ==> q in w' && w'[q] == w[q];
    if weight <= x && x > 0 {
      var q :| q in w && w[q] == x;
      if q != p {
        assert q in w' && w'[q] == x;
      }
    }
  }
}
