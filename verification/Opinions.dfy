/** Votes, colour weights and the confirmation of the winning colour (multiverse/opinion_manager.go). */
module Opinions {
  import opened Messages
  import opened Parameters
  import opened PeerWeights

  datatype Opinion = Opinion(color: Color, sequenceNumber: nat)

  type Votes = map<PeerID, Opinion>
  type Tally = map<Color, nat>

  function WeightIn(aw: Tally, c: Color): nat {
    if c in aw then aw[c] else 0
  }

  ghost function Supporters(votes: Votes, c: Color): set<PeerID> {
    set p | p in votes && votes[p].color == c
  }

  /** The colour weights are the summed weights of the peers whose latest vote is for the colour. */
  ghost predicate Tallied(w: Weights, n: nat, votes: Votes, aw: Tally) {
    && (forall p :: p in votes ==> 0 <= p < n && votes[p].color != UNDEFINED && votes[p].color in aw)
    && UNDEFINED !in aw
    && forall c :: WeightIn(aw, c) == Sum(w, Supporters(votes, c), n)
  }

  /** Two colours share no voter. */
  lemma {:induction false} ColorsWithinTotal(w: Weights, n: nat, votes: Votes, aw: Tally, c: Color, d: Color)
    requires Tallied(w, n, votes, aw) && c != d
    ensures WeightIn(aw, c) + WeightIn(aw, d) <= Sum(w, votes.Keys, n)
  {
    var s, t := Supporters(votes, c), Supporters(votes, d);
    SumUnion(w, s, t, n);
    SumOfNone(w, s * t, n);
    SumMonotone(w, s + t, votes.Keys, n);
  }

  /** Where all peers together fit 64 bits, so does every colour, and no addition to it wraps. */
  lemma {:induction false} ColorFits(w: Weights, n: nat, votes: Votes, aw: Tally, c: Color)
    requires Tallied(w, n, votes, aw) && Sum(w, w.Keys, n) < TWO_TO_64
    ensures WeightIn(aw, c) < TWO_TO_64
  {
    SumWithinTotal(w, Supporters(votes, c), n);
  }

  function WeightOfAll(aw: Tally, colors: seq<Color>): nat {
    if colors == [] then 0 else WeightOfAll(aw, colors[1..]) + WeightIn(aw, colors[0])
  }

  ghost function Backers(votes: Votes, colors: seq<Color>): set<PeerID> {
    set p | p in votes && votes[p].color in colors
  }

  /**
   Conservation: colours weigh what their backers weigh, all together what all voters weigh, and never more than all
   peers.
   */
  lemma {:induction false} WeightIsConserved(w: Weights, n: nat, votes: Votes, aw: Tally, colors: seq<Color>)
    requires Tallied(w, n, votes, aw) && forall i, j :: 0 <= i < j < |colors| ==> colors[i] != colors[j]
    ensures WeightOfAll(aw, colors) == Sum(w, Backers(votes, colors), n) <= Sum(w, votes.Keys, n)
    ensures WeightOfAll(aw, colors) <= Sum(w, w.Keys, n)
    ensures (forall c :: c in aw ==> c in colors) ==> WeightOfAll(aw, colors) == Sum(w, votes.Keys, n)
  {
    if colors == [] {
      SumOfNone(w, Backers(votes, colors), n);
    } else {
      var rest := colors[1..];
      WeightIsConserved(w, n, votes, aw, rest);
      OneMoreColor(w, n, votes, colors);
    }
    SumMonotone(w, Backers(votes, colors), votes.Keys, n);
    SumWithinTotal(w, votes.Keys, n);
    if forall c :: c in aw ==> c in colors {
      assert forall p :: p in Backers(votes, colors) <==> p in votes.Keys;
      SumSame(w, w, Backers(votes, colors), votes.Keys, n);
    }
  }

  lemma {:induction false} OneMoreColor(w: Weights, n: nat, votes: Votes, colors: seq<Color>)
    requires colors != [] && colors[0] !in colors[1..]
    ensures Sum(w, Backers(votes, colors), n)
         == Sum(w, Backers(votes, colors[1..]), n) + Sum(w, Supporters(votes, colors[0]), n)
  {
    var s, t := Backers(votes, colors[1..]), Supporters(votes, colors[0]);
    SumUnion(w, s, t, n);
    SumOfNone(w, s * t, n);
    assert forall p :: p in Backers(votes, colors) <==> p in s + t;
    SumSame(w, w, Backers(votes, colors), s + t, n);
  }

  // ----- taking a vote -----

  /** Only a coloured message newer than the last vote of its issuer counts. */
  predicate Counts(votes: Votes, m: Message, color: Color) {
    color != UNDEFINED && !(m.issuer in votes && m.sequenceNumber <= votes[m.issuer].sequenceNumber)
  }

  /** The votes after a message ... */
  function Voted(votes: Votes, m: Message, color: Color): Votes {
    if Counts(votes, m, color) then votes[m.issuer := Opinion(color, m.sequenceNumber)] else votes
  }

  /** ... and the colours that are listed then. No colour ever leaves the list. */
  function Listed(colors: set<Color>, votes: Votes, m: Message, color: Color): set<Color> {
    if Counts(votes, m, color) then colors + {color} else colors
  }

  lemma {:induction false} MovedVote(w: Weights, n: nat, votes: Votes, p: PeerID, o: Opinion, c: Color)
    requires 0 <= p < n && p in votes
    ensures var before, after := Supporters(votes, c), Supporters(votes[p := o], c);
      Sum(w, after, n) == Sum(w, before, n)
        - (if votes[p].color == c then WeightOf(w, p) else 0) + (if o.color == c then WeightOf(w, p) else 0)
  {
    var others := Supporters(votes, c) - {p};
    SumInsert(w, others, p, n);
    assert Supporters(votes, c) == if votes[p].color == c then others + {p} else others;
    assert Supporters(votes[p := o], c) == if o.color == c then others + {p} else others;
  }

  lemma {:induction false} FirstVote(w: Weights, n: nat, votes: Votes, p: PeerID, o: Opinion, c: Color)
    requires 0 <= p < n && p !in votes
    ensures Sum(w, Supporters(votes[p := o], c), n)
         == Sum(w, Supporters(votes, c), n) + if o.color == c then WeightOf(w, p) else 0
  {
    var before := Supporters(votes, c);
    SumInsert(w, before, p, n);
    assert Supporters(votes[p := o], c) == if o.color == c then before + {p} else before;
  }

  /** What the events report of a weight: `int64(-w)` and `int64(w)` of an unsigned 64-bit number. */
  const TWO_TO_63: nat := 0x8000_0000_0000_0000

  function AsInt64(x: nat): int
    requires x < TWO_TO_64
  {
    if x < TWO_TO_63 then x else x - TWO_TO_64
  }

  function NegateUint64(x: nat): (r: nat)
    requires x < TWO_TO_64
    ensures r < TWO_TO_64
  {
    Wrap(TWO_TO_64 - x)
  }

  /** The reported change is the real one exactly for weights that fit 63 bits. */
  lemma ReportedChangeIsReal(x: nat)
    requires x < TWO_TO_64
    ensures AsInt64(x) == x <==> x < TWO_TO_63
    ensures AsInt64(NegateUint64(x)) == 0 - x <==> x <= TWO_TO_63
  {
    assert x > 0 ==> NegateUint64(x) == TWO_TO_64 - x;
  }

  datatype Delta = Delta(color: Color, change: int)

  function SumOf(deltas: seq<Delta>, c: Color): int {
    if deltas == [] then 0
    else SumOf(deltas[..|deltas| - 1], c) + if deltas[|deltas| - 1].color == c then deltas[|deltas| - 1].change else 0
  }

  lemma {:induction false} SumOfOneMore(deltas: seq<Delta>, d: Delta, c: Color)
    ensures SumOf(deltas + [d], c) == SumOf(deltas, c) + if d.color == c then d.change else 0
  {
    assert (deltas + [d])[..|deltas|] == deltas;
  }

  // ----- the winning colour -----

  /** The heaviest colour; of several heaviest the one with the smallest number. */
  ghost predicate IsMaxOpinion(aw: Tally, c: Color) {
    if aw == map[] then c == UNDEFINED
    else c in aw && forall d :: d in aw ==> aw[d] < aw[c] || (aw[d] == aw[c] && c <= d)
  }

  lemma MaxOpinionIsUnique(aw: Tally, c: Color, d: Color)
    requires IsMaxOpinion(aw, c) && IsMaxOpinion(aw, d)
    ensures c == d
  {
    if aw != map[] {
      assert aw[c] == aw[d];
    }
  }

  lemma {:induction false} MaxOpinionExists(aw: Tally)
    ensures exists c :: IsMaxOpinion(aw, c)
    decreases aw.Keys
  {
    if aw == map[] {
      assert IsMaxOpinion(aw, UNDEFINED);
    } else {
      Inhabited(aw.Keys);
      var x :| x in aw.Keys;
      var rest := aw - {x};
      MaxOpinionExists(rest);
      var y :| IsMaxOpinion(rest, y);
      assert forall d :: d in aw ==> d == x || (d in rest && rest[d] == aw[d]);
      if rest == map[] || aw[x] > aw[y] || (aw[x] == aw[y] && x < y) {
        assert IsMaxOpinion(aw, x);
      } else {
        assert IsMaxOpinion(aw, y);
      }
    }
  }

  ghost function MaxOpinion(aw: Tally): (c: Color)
    ensures IsMaxOpinion(aw, c)
  {
    MaxOpinionExists(aw);
    var c :| IsMaxOpinion(aw, c);
    c
  }

  /** The search finds the heaviest colour whatever order the colours come in. */
  method GetMaxOpinion(aw: Tally) returns (maxOpinion: Color)
    requires UNDEFINED !in aw
    ensures maxOpinion == MaxOpinion(aw)
  {
    var maxApprovalWeight := 0;
    maxOpinion := UNDEFINED;
    var todo := aw.Keys;
    while todo != {}
      invariant todo <= aw.Keys
      invariant maxOpinion == UNDEFINED ==> todo == aw.Keys && maxApprovalWeight == 0
      invariant maxOpinion != UNDEFINED
         ==> maxOpinion in aw && maxOpinion !in todo && maxApprovalWeight == aw[maxOpinion]
      invariant maxOpinion != UNDEFINED ==> forall d :: d in aw && d !in todo ==>
        aw[d] < aw[maxOpinion] || (aw[d] == aw[maxOpinion] && maxOpinion <= d)
    {
      Inhabited(todo);
      var color :| color in todo;
      if aw[color] > maxApprovalWeight || (aw[color] == maxApprovalWeight && color < maxOpinion)
        || maxOpinion == UNDEFINED {
        maxApprovalWeight := aw[color];
        maxOpinion := color;
      }
      todo := todo - {color};
    }
    assert aw.Keys == {} <==> aw == map[];
    MaxOpinionIsUnique(aw, maxOpinion, MaxOpinion(aw));
  }

  /** Tables that give all colours the same weight, where a missing colour weighs nothing. */
  ghost predicate SameWeights(aw: Tally, aw': Tally) {
    forall c :: WeightIn(aw, c) == WeightIn(aw', c)
  }

  ghost predicate SomeWeight(aw: Tally) {
    exists c :: WeightIn(aw, c) > 0
  }

  /** Equal weights mean an equal winner, as soon as any colour weighs something. */
  lemma SameWinner(aw: Tally, aw': Tally)
    requires SameWeights(aw, aw') && SomeWeight(aw)
    ensures MaxOpinion(aw) == MaxOpinion(aw')
  {
    var c, c' := MaxOpinion(aw), MaxOpinion(aw');
    HeaviestHasWeight(aw, aw', c, c');
    HeaviestHasWeight(aw', aw, c', c);
  }

  lemma HeaviestHasWeight(aw: Tally, aw': Tally, c: Color, c': Color)
    requires SameWeights(aw, aw') && SomeWeight(aw) && IsMaxOpinion(aw, c) && IsMaxOpinion(aw', c')
    ensures SomeWeight(aw') && c' in aw && c in aw' && aw[c] == aw'[c] > 0
    ensures aw[c'] <= aw[c] && (aw[c'] == aw[c] ==> c <= c')
  {
    var d :| WeightIn(aw, d) > 0;
    assert d in aw && aw[d] <= aw[c];
    assert WeightIn(aw', d) == WeightIn(aw, d) > 0;
    assert d in aw' && aw'[d] <= aw'[c'];
    assert WeightIn(aw', c') == WeightIn(aw, c') && WeightIn(aw', c) == WeightIn(aw, c);
  }

  // ----- confirming the winning colour -----

  /** The weight that has to be exceeded. */
  ghost function Bar(c: Config): real {
    c.nodesTotalWeight as real * c.confirmationThreshold
  }

  /** The colour leads by more than the threshold: over nothing, or over the next colour. */
  ghost predicate Passes(c: Config, aw: Tally, color: Color) {
    var lead := if c.confirmationThresholdAbsolute then WeightIn(aw, color) as real
                else WeightIn(aw, color) as real - WeightIn(aw, MaxOpinion(aw - {color})) as real;
    lead > Bar(c)
  }

  /** What a colour gains or loses when weight moves. */
  function Moved(last: Color, inherited: Color, weight: nat, c: Color): int {
    (if c == inherited then weight else 0) - (if c == last then weight else 0)
  }

  /** The table after a colour lost some weight. */
  function Lightened(aw: Tally, color: Color, weight: nat): Tally {
    aw[color := if WeightIn(aw, color) >= weight then WeightIn(aw, color) - weight else 0]
  }

  /** The weight of a confirmed own opinion is reported when it no longer passes. */
  ghost function LowWeight(c: Config, confirmed: bool, own: Color, aw: Tally, color: Color): seq<Delta> {
    if confirmed && own == color && !Passes(c, aw, own) then [Delta(color, AsInt64(Wrap(WeightIn(aw, color))))] else []
  }

  /** That may happen when a counted vote goes over to another colour. */
  ghost function LowWeightAfter(
    c: Config, w: Weights, confirmed: bool, own: Color, votes: Votes, aw: Tally, m: Message, color: Color): seq<Delta>
  {
    if Counts(votes, m, color) && m.issuer in votes && votes[m.issuer].color != color then
      var last := votes[m.issuer].color;
      LowWeight(c, confirmed, own, Lightened(aw, last, WeightOf(w, m.issuer)), last)
    else []
  }

  /** What is announced to the observers of a node. */
  datatype Notice = Confirmed(color: Color) | Unconfirmed(color: Color)

  predicate InTurn(notices: seq<Notice>, i: nat)
    requires i < |notices|
  {
    if i % 2 == 0 then notices[i].Confirmed? else notices[i] == Unconfirmed(notices[i - 1].color)
  }

  /** Notices alternate, and each retraction names the colour that was confirmed last. */
  ghost predicate Alternating(notices: seq<Notice>) {
    forall i :: 0 <= i < |notices| ==> InTurn(notices, i)
  }

  /** The colour that stands confirmed. */
  ghost function Standing(notices: seq<Notice>): Color {
    if |notices| % 2 == 1 then notices[|notices| - 1].color else UNDEFINED
  }

  /** What is reported when the heaviest colour was `own` and is `now`. */
  ghost function Reported(confirmed: bool, own: Color, now: Color, passes: bool): seq<Notice> {
    (if confirmed && now != own then [Unconfirmed(own)] else [])
    + (if passes && !(confirmed && now == own) then [Confirmed(now)] else [])
  }

  /** The colour was the heaviest and led by more than the threshold, or it was not the heaviest any more. */
  ghost predicate Deserved(c: Config, notice: Notice, aw: Tally) {
    match notice
    case Confirmed(color) =>
      && color == MaxOpinion(aw)
      && WeightIn(aw, color) as real
           - (if c.confirmationThresholdAbsolute then 0.0 else WeightIn(aw, MaxOpinion(aw - {color})) as real)
         > c.nodesTotalWeight as real * c.confirmationThreshold
    case Unconfirmed(color) => color != MaxOpinion(aw)
  }

  /** Every notice was deserved by the weights at that time. */
  ghost predicate AllDeserved(c: Config, notices: seq<Notice>, tallies: seq<Tally>) {
    |tallies| == |notices| && forall i :: 0 <= i < |notices| ==> Deserved(c, notices[i], tallies[i])
  }

  lemma OneMoreDeserved(c: Config, notices: seq<Notice>, tallies: seq<Tally>, notice: Notice, aw: Tally)
    requires AllDeserved(c, notices, tallies) && Deserved(c, notice, aw)
    ensures AllDeserved(c, notices + [notice], tallies + [aw]) && |notices| == |tallies|
  {
    hide Deserved;
  }

  lemma LosingIsDeserved(c: Config, aw: Tally, color: Color)
    requires color != MaxOpinion(aw)
    ensures Deserved(c, Unconfirmed(color), aw)
  {
  }

  lemma PassingIsDeserved(c: Config, aw: Tally, color: Color)
    requires Passes(c, aw, color) && color == MaxOpinion(aw)
    ensures Deserved(c, Confirmed(color), aw)
  {
  }

  /** A vote that counts, for another colour than the vote before. */
  ghost predicate Moves(votes: Votes, m: Message, color: Color) {
    Counts(votes, m, color) && !(m.issuer in votes && votes[m.issuer].color == color)
  }

  lemma OneMoreNotice(notices: seq<Notice>, notice: Notice)
    requires Alternating(notices)
    requires if |notices| % 2 == 0 then notice.Confirmed? else notice == Unconfirmed(Standing(notices))
    ensures Alternating(notices + [notice])
  {
    var all := notices + [notice];
    forall i | 0 <= i < |all|
      ensures InTurn(all, i)
    {
      assert i < |notices| ==> InTurn(notices, i);
    }
  }

  class OpinionManager {
    const config: Config
    const weights: Weights
    var ownOpinion: Color
    var peerOpinions: Votes
    var approvalWeights: Tally
    var colorConfirmed: bool
    ghost var deltas: seq<Delta>    // the reported weight changes
    ghost var minimums: seq<Delta>  // the reported weights of a confirmed colour that no longer passes
    ghost var notices: seq<Notice>  // the reported confirmations
    ghost var tallies: seq<Tally>   // and for each of them, what the colours weighed then

    /** Every weight fits the signed weights of the reports, and all together fit 64 bits. */
    ghost predicate Sensible() {
      (forall p :: WeightOf(weights, p) < TWO_TO_63) && Sum(weights, weights.Keys, config.nodesCount) < TWO_TO_64
    }

    ghost predicate Valid()
      reads this
    {
      && Sensible()
      && Tallied(weights, config.nodesCount, peerOpinions, approvalWeights)
      && (forall c :: SumOf(deltas, c) == WeightIn(approvalWeights, c))
      && Alternating(notices) && (colorConfirmed <==> |notices| % 2 == 1)
      && (colorConfirmed ==> Standing(notices) == ownOpinion) && AllDeserved(config, notices, tallies)
    }

    /** Nothing is left to be done: the opinion is the heaviest colour, and is confirmed if it may be. */
    ghost predicate Settled()
      reads this
    {
      && ownOpinion == MaxOpinion(approvalWeights)
      && (approvalWeights != map[] && Passes(config, approvalWeights, ownOpinion) ==> colorConfirmed)
    }

    constructor (config: Config, weights: Weights)
      requires forall p :: WeightOf(weights, p) < TWO_TO_63
      requires Sum(weights, weights.Keys, config.nodesCount) < TWO_TO_64
      ensures Valid() && Settled() && this.config == config && this.weights == weights
      ensures peerOpinions == map[] && approvalWeights == map[] && notices == []
    {
      this.config, this.weights := config, weights;
      ownOpinion, peerOpinions, approvalWeights, colorConfirmed := UNDEFINED, map[], map[], false;
      deltas, minimums, notices, tallies := [], [], [], [];
      new;
      forall c
        ensures Sum(weights, Supporters(peerOpinions, c), config.nodesCount) == 0
      {
        SumOfNone(weights, Supporters(peerOpinions, c), config.nodesCount);
      }
    }

    /** Forms the opinion after `m` was booked with the colour it inherited. */
    method FormOpinion(m: Message, inherited: Color)
      requires Valid() && Settled() && 0 <= m.issuer < config.nodesCount && 0 < m.sequenceNumber
      modifies this
      ensures Valid() && Settled() && peerOpinions == Voted(old(peerOpinions), m, inherited)
      ensures approvalWeights.Keys == Listed(old(approvalWeights).Keys, old(peerOpinions), m, inherited)
      ensures forall c :: WeightIn(approvalWeights, c) < TWO_TO_64
      ensures minimums == old(minimums) + old(LowWeightAfter(
                config, weights, colorConfirmed, ownOpinion, peerOpinions, approvalWeights, m, inherited))
      ensures old(Moves(peerOpinions, m, inherited)) ==>
        && ownOpinion == MaxOpinion(approvalWeights)
        && colorConfirmed
             == ((old(colorConfirmed) && ownOpinion == old(ownOpinion)) || Passes(config, approvalWeights, ownOpinion))
        && notices == old(notices) + Reported(old(colorConfirmed), old(ownOpinion), ownOpinion, colorConfirmed)
      ensures old(tallies) <= tallies && forall i :: |old(tallies)| <= i < |tallies| ==> tallies[i] == approvalWeights
      ensures !old(Moves(peerOpinions, m, inherited)) ==>
        && ownOpinion == old(ownOpinion) && approvalWeights == old(approvalWeights)
        && colorConfirmed == old(colorConfirmed) && notices == old(notices)
    {
      hide LowWeightAfter, Listed, Reported, Passes;
      var updated := UpdateWeights(m, inherited);
      if !updated {
        return;
      }
      WeightsUpdated();
    }

    method UpdateWeights(m: Message, inherited: Color) returns (updated: bool)
      requires Valid() && 0 <= m.issuer < config.nodesCount && 0 < m.sequenceNumber
      modifies this`peerOpinions, this`approvalWeights, this`deltas, this`minimums
      ensures Valid() && peerOpinions == Voted(old(peerOpinions), m, inherited)
      ensures minimums == old(minimums) + old(LowWeightAfter(
                config, weights, colorConfirmed, ownOpinion, peerOpinions, approvalWeights, m, inherited))
      ensures approvalWeights.Keys == Listed(old(approvalWeights).Keys, old(peerOpinions), m, inherited)
      ensures forall c :: WeightIn(approvalWeights, c) < TWO_TO_64
      ensures !updated ==> approvalWeights == old(approvalWeights)
      ensures updated == old(Moves(peerOpinions, m, inherited))
      ensures updated ==> approvalWeights != map[]
    {
      hide LowWeight, Lightened;
      NothingWraps();
      if inherited == UNDEFINED {
        return false;
      }
      var exist := m.issuer in peerOpinions;
      var lastOpinion := if exist then peerOpinions[m.issuer] else Opinion(UNDEFINED, 0);
      if m.sequenceNumber <= lastOpinion.sequenceNumber {
        return false;
      }
      if lastOpinion.color == inherited {
        Renew(m, inherited);
        return false;
      }
      if exist {
        MoveVote(m, inherited);
      } else {
        CastVote(m, inherited);
      }
      NothingWraps();
      updated := true;
    }

    lemma NothingWraps()
      requires Valid()
      ensures forall c :: WeightIn(approvalWeights, c) < TWO_TO_64
    {
      forall c
        ensures WeightIn(approvalWeights, c) < TWO_TO_64
      {
        ColorFits(weights, config.nodesCount, peerOpinions, approvalWeights, c);
      }
    }

    /** The issuer votes again for the colour it voted for. */
    method Renew(m: Message, inherited: Color)
      requires Valid() && m.issuer in peerOpinions && peerOpinions[m.issuer].color == inherited
      modifies this`peerOpinions
      ensures Valid() && peerOpinions == old(peerOpinions)[m.issuer := Opinion(inherited, m.sequenceNumber)]
    {
      ghost var before := peerOpinions;
      peerOpinions := peerOpinions[m.issuer := peerOpinions[m.issuer].(sequenceNumber := m.sequenceNumber)];
      forall c
        ensures Sum(weights, Supporters(peerOpinions, c), config.nodesCount)
             == Sum(weights, Supporters(before, c), config.nodesCount)
      {
        assert Supporters(peerOpinions, c) == Supporters(before, c);
      }
    }

    /** The weight of the issuer moves from one colour to another. */
    method MoveVote(m: Message, inherited: Color)
      requires Valid() && 0 <= m.issuer < config.nodesCount && inherited != UNDEFINED
      requires m.issuer in peerOpinions && peerOpinions[m.issuer].color != inherited
      modifies this`peerOpinions, this`approvalWeights, this`deltas, this`minimums
      ensures Valid() && peerOpinions == old(peerOpinions)[m.issuer := Opinion(inherited, m.sequenceNumber)]
      ensures var last := old(peerOpinions)[m.issuer].color;
        minimums == old(minimums) + LowWeight(config, colorConfirmed, ownOpinion,
                                              Lightened(old(approvalWeights), last, WeightOf(weights, m.issuer)), last)
      ensures approvalWeights.Keys == old(approvalWeights).Keys + {inherited}
    {
      hide LowWeight, Passes;
      ghost var before, tally := peerOpinions, approvalWeights;
      var last := peerOpinions[m.issuer].color;
      var weight := WeightOf(weights, m.issuer);
      SumMember(weights, Supporters(before, last), m.issuer, config.nodesCount);
      assert WeightIn(approvalWeights, last) >= weight;
      MoveWeight(last, inherited, weight);
      peerOpinions := peerOpinions[m.issuer := Opinion(inherited, m.sequenceNumber)];
      forall c
        ensures WeightIn(approvalWeights, c) == Sum(weights, Supporters(peerOpinions, c), config.nodesCount)
        ensures SumOf(deltas, c) == WeightIn(approvalWeights, c)
      {
        MovedVote(weights, config.nodesCount, before, m.issuer, Opinion(inherited, m.sequenceNumber), c);
        assert WeightIn(tally, c) == Sum(weights, Supporters(before, c), config.nodesCount);
      }
    }

    /** The first vote of the issuer. */
    method CastVote(m: Message, inherited: Color)
      requires Valid() && 0 <= m.issuer < config.nodesCount && inherited != UNDEFINED && m.issuer !in peerOpinions
      modifies this`peerOpinions, this`approvalWeights, this`deltas
      ensures Valid() && peerOpinions == old(peerOpinions)[m.issuer := Opinion(inherited, m.sequenceNumber)]
      ensures approvalWeights.Keys == old(approvalWeights).Keys + {inherited}
    {
      ghost var before, tally := peerOpinions, approvalWeights;
      var weight := WeightOf(weights, m.issuer);
      approvalWeights := approvalWeights[inherited := WeightIn(approvalWeights, inherited) + weight];
      Report(Delta(inherited, AsInt64(weight)));
      ReportedChangeIsReal(weight);
      peerOpinions := peerOpinions[m.issuer := Opinion(inherited, m.sequenceNumber)];
      forall c
        ensures WeightIn(approvalWeights, c) == Sum(weights, Supporters(peerOpinions, c), config.nodesCount)
        ensures SumOf(deltas, c) == WeightIn(approvalWeights, c)
      {
        FirstVote(weights, config.nodesCount, before, m.issuer, Opinion(inherited, m.sequenceNumber), c);
        assert WeightIn(tally, c) == Sum(weights, Supporters(before, c), config.nodesCount);
      }
    }

    /** Takes the weight from one colour, reports what is left of it, and adds the weight to the other. */
    method MoveWeight(last: Color, inherited: Color, weight: nat)
      requires last in approvalWeights && approvalWeights[last] >= weight && last != inherited
      requires UNDEFINED !in approvalWeights && inherited != UNDEFINED && weight < TWO_TO_63
      modifies this`approvalWeights, this`deltas, this`minimums
      ensures forall c ::
        WeightIn(approvalWeights, c) == WeightIn(old(approvalWeights), c) + Moved(last, inherited, weight, c)
      ensures forall c :: SumOf(deltas, c) == SumOf(old(deltas), c) + Moved(last, inherited, weight, c)
      ensures minimums == old(minimums)
        + LowWeight(config, colorConfirmed, ownOpinion, Lightened(old(approvalWeights), last, weight), last)
      ensures approvalWeights.Keys == old(approvalWeights).Keys + {inherited}
    {
      hide LowWeight, Passes, SumOf;
      ReportedChangeIsReal(weight);
      approvalWeights := approvalWeights[last := approvalWeights[last] - weight];
      assert approvalWeights == Lightened(old(approvalWeights), last, weight);
      Report(Delta(last, AsInt64(NegateUint64(weight))));
      ReportLowWeight(last);
      approvalWeights := approvalWeights[inherited := WeightIn(approvalWeights, inherited) + weight];
      Report(Delta(inherited, AsInt64(weight)));
    }

    /** Reports the weight of the confirmed colour if it lost too much. */
    method ReportLowWeight(color: Color)
      requires UNDEFINED !in approvalWeights
      modifies this`minimums
      ensures minimums == old(minimums) + LowWeight(config, colorConfirmed, ownOpinion, approvalWeights, color)
    {
      hide Passes;
      if colorConfirmed && ownOpinion == color {
        var passes := CheckColorConfirmed(ownOpinion);
        if !passes {
          minimums := minimums + [Delta(color, AsInt64(Wrap(WeightIn(approvalWeights, color))))];
        }
      }
    }

    ghost method Report(d: Delta)
      modifies this`deltas
      ensures forall c :: SumOf(deltas, c) == SumOf(old(deltas), c) + if d.color == c then d.change else 0
    {
      forall c
        ensures SumOf(deltas + [d], c) == SumOf(deltas, c) + if d.color == c then d.change else 0
      {
        SumOfOneMore(deltas, d, c);
      }
      deltas := deltas + [d];
    }

    method WeightsUpdated()
      requires Valid() && approvalWeights != map[]
      modifies this`ownOpinion, this`colorConfirmed, this`notices, this`tallies
      ensures Valid() && Settled() && ownOpinion == MaxOpinion(approvalWeights)
      ensures colorConfirmed
           == ((old(colorConfirmed) && ownOpinion == old(ownOpinion)) || Passes(config, approvalWeights, ownOpinion))
      ensures notices == old(notices) + Reported(old(colorConfirmed), old(ownOpinion), ownOpinion, colorConfirmed)
      ensures old(tallies) <= tallies && forall i :: |old(tallies)| <= i < |tallies| ==> tallies[i] == approvalWeights
    {
      hide Passes, Deserved;
      var maxOpinion := GetMaxOpinion(approvalWeights);
      var oldOpinion := ownOpinion;
      if maxOpinion != oldOpinion {
        ownOpinion := maxOpinion;
      }
      UpdateConfirmation(oldOpinion, maxOpinion);
    }

    /** Retracts the confirmation of a colour that lost, and confirms the winner if it leads far enough. */
    method UpdateConfirmation(oldOpinion: Color, maxOpinion: Color)
      requires UNDEFINED !in approvalWeights && Alternating(notices) && (colorConfirmed <==> |notices| % 2 == 1)
      requires colorConfirmed ==> Standing(notices) == oldOpinion
      requires AllDeserved(config, notices, tallies) && maxOpinion == MaxOpinion(approvalWeights)
      modifies this`colorConfirmed, this`notices, this`tallies
      ensures Alternating(notices) && (colorConfirmed <==> |notices| % 2 == 1)
      ensures colorConfirmed ==> Standing(notices) == maxOpinion
      ensures colorConfirmed <==>
        (old(colorConfirmed) && maxOpinion == oldOpinion) || Passes(config, approvalWeights, maxOpinion)
      ensures notices == old(notices) + Reported(old(colorConfirmed), oldOpinion, maxOpinion, colorConfirmed)
      ensures AllDeserved(config, notices, tallies)
      ensures old(tallies) <= tallies && forall i :: |old(tallies)| <= i < |tallies| ==> tallies[i] == approvalWeights
    {
      hide Passes, Deserved, MaxOpinion, Alternating, AllDeserved;
      if colorConfirmed && maxOpinion != oldOpinion {
        colorConfirmed := false;
        LosingIsDeserved(config, approvalWeights, oldOpinion);
        OneMoreDeserved(config, notices, tallies, Unconfirmed(oldOpinion), approvalWeights);
        OneMoreNotice(notices, Unconfirmed(oldOpinion));
        notices, tallies := notices + [Unconfirmed(oldOpinion)], tallies + [approvalWeights];
      }
      var passes := CheckColorConfirmed(maxOpinion);
      if passes && !colorConfirmed {
        OneMoreNotice(notices, Confirmed(maxOpinion));
        PassingIsDeserved(config, approvalWeights, maxOpinion);
        OneMoreDeserved(config, notices, tallies, Confirmed(maxOpinion), approvalWeights);
        notices, tallies := notices + [Confirmed(maxOpinion)], tallies + [approvalWeights];
        colorConfirmed := true;
      }
    }

    method CheckColorConfirmed(newOpinion: Color) returns (passes: bool)
      requires UNDEFINED !in approvalWeights
      ensures passes <==> Passes(config, approvalWeights, newOpinion)
    {
      var bar := config.nodesTotalWeight as real * config.confirmationThreshold;
      if config.confirmationThresholdAbsolute {
        passes := WeightIn(approvalWeights, newOpinion) as real > bar;
      } else {
        var alternativeOpinion := GetMaxOpinion(approvalWeights - {newOpinion});
        passes :=
          WeightIn(approvalWeights, newOpinion) as real - WeightIn(approvalWeights, alternativeOpinion) as real > bar;
      }
    }
  }

  // ----- what two nodes can confirm -----

  /** The peers whose vote two nodes record differently. */
  ghost function Disagreeing(votes: Votes, votes': Votes): set<PeerID> {
    set p | p in votes && p in votes' && votes[p].color != votes'[p].color
  }

  /** What passes weighs more than the threshold, in either mode. */
  lemma PassesIsMajority(c: Config, aw: Tally, color: Color)
    requires Passes(c, aw, color)
    ensures WeightIn(aw, color) as real > Bar(c)
  {
    hide Bar;
  }

  /**
   Quorum intersection: confirming different colours takes votes recorded differently of peers that weigh more than
   twice the threshold exceeds half of the total weight.
   */
  lemma {:induction false} QuorumIntersection(
    c: Config, w: Weights, votes: Votes, aw: Tally, votes': Votes, aw': Tally, x: Color, y: Color)
    requires Tallied(w, c.nodesCount, votes, aw) && Tallied(w, c.nodesCount, votes', aw')
    requires Sum(w, votes.Keys + votes'.Keys, c.nodesCount) <= c.nodesTotalWeight
    requires Passes(c, aw, x) && Passes(c, aw', y) && x != y
    ensures Sum(w, Disagreeing(votes, votes'), c.nodesCount) as real > 2.0 * Bar(c) - c.nodesTotalWeight as real
  {
    hide Bar, Passes;
    var n := c.nodesCount;
    var s, t := Supporters(votes, x), Supporters(votes', y);
    PassesIsMajority(c, aw, x);
    PassesIsMajority(c, aw', y);
    SumUnion(w, s, t, n);
    SumMonotone(w, s + t, votes.Keys + votes'.Keys, n);
    SumMonotone(w, s * t, Disagreeing(votes, votes'), n);
    assert WeightIn(aw, x) == Sum(w, s, n) && WeightIn(aw', y) == Sum(w, t, n);
  }

  /** One node never passes two colours if the threshold is at least one half, or if leads are compared. */
  lemma {:induction false} OneMajority(c: Config, w: Weights, votes: Votes, aw: Tally, x: Color, y: Color)
    requires Tallied(w, c.nodesCount, votes, aw) && Sum(w, votes.Keys, c.nodesCount) <= c.nodesTotalWeight
    requires c.confirmationThreshold >= if c.confirmationThresholdAbsolute then 0.5 else 0.0
    requires Passes(c, aw, x) && Passes(c, aw, y)
    ensures x == y
  {
    hide Bar;
    HalfOrMore(c);
    if x != y {
      if c.confirmationThresholdAbsolute {
        ColorsWithinTotal(w, c.nodesCount, votes, aw, x, y);
      } else {
        LeadsOver(c, aw, x, y);
        LeadsOver(c, aw, y, x);
      }
    }
  }

  lemma HalfOrMore(c: Config)
    ensures c.confirmationThreshold >= 0.0 ==> Bar(c) >= 0.0
    ensures c.confirmationThreshold >= 0.5 ==> 2.0 * Bar(c) >= c.nodesTotalWeight as real
  {
    var total, threshold := c.nodesTotalWeight as real, c.confirmationThreshold;
    if threshold >= 0.5 {
      NotNegative(total, threshold - 0.5);
      Distributes(total, threshold, 0.5);
    }
    if threshold >= 0.0 {
      NotNegative(total, threshold);
    }
  }

  lemma NotNegative(x: real, y: real)
    requires 0.0 <= x && 0.0 <= y
    ensures 0.0 <= x * y
  {
  }

  lemma Distributes(x: real, y: real, z: real)
    ensures x * (y - z) == x * y - x * z
  {
  }

  /** What leads over the next colour weighs more than any other. */
  lemma {:induction false} LeadsOver(c: Config, aw: Tally, x: Color, y: Color)
    requires !c.confirmationThresholdAbsolute && Passes(c, aw, x) && x != y && 0.0 <= Bar(c)
    ensures WeightIn(aw, x) > WeightIn(aw, y)
  {
    hide Bar;
    var rest := aw - {x};
    if y in aw {
      assert y in rest && rest[y] == aw[y];
      assert IsMaxOpinion(rest, MaxOpinion(rest));
    }
  }

  /** Votes of one node that make two colours pass. */
  ghost predicate Splits(c: Config, w: Weights, votes: Votes, aw: Tally, x: Color, y: Color) {
    && Tallied(w, c.nodesCount, votes, aw) && Sum(w, votes.Keys, c.nodesCount) <= c.nodesTotalWeight
    && x != y && Passes(c, aw, x) && Passes(c, aw, y)
  }

  /**
   With the absolute check one node can pass two colours exactly if half of the total weight, rounded down, passes.
   */
  lemma TwoMajoritiesIff(c: Config)
    requires c.confirmationThresholdAbsolute && 2 <= c.nodesCount
    ensures (exists w, votes, aw, x, y :: Splits(c, w, votes, aw, x, y))
       <==> (c.nodesTotalWeight / 2) as real > Bar(c)
  {
    hide Bar;
    if w, votes, aw, x, y :| Splits(c, w, votes, aw, x, y) {
      ColorsWithinTotal(w, c.nodesCount, votes, aw, x, y);
      assert 2 * WeightIn(aw, x) <= c.nodesTotalWeight || 2 * WeightIn(aw, y) <= c.nodesTotalWeight;
    }
    if (c.nodesTotalWeight / 2) as real > Bar(c) {
      var w, votes, aw := TwoHalves(c);
      assert Splits(c, w, votes, aw, 1, 2);
    }
  }

  /** Two peers that share the weight vote for two colours. */
  lemma TwoHalves(c: Config) returns (w: Weights, votes: Votes, aw: Tally)
    requires c.confirmationThresholdAbsolute && 2 <= c.nodesCount
    requires (c.nodesTotalWeight / 2) as real > Bar(c)
    ensures Splits(c, w, votes, aw, 1, 2)
  {
    hide Bar;
    var less := c.nodesTotalWeight / 2;
    var more := c.nodesTotalWeight - less;
    w, votes := map[0 := less, 1 := more], map[0 := Opinion(1, 1), 1 := Opinion(2, 1)];
    aw := map[1 := less, 2 := more];
    forall color
      ensures WeightIn(aw, color) == Sum(w, Supporters(votes, color), c.nodesCount)
    {
      TwoPeers(w, Supporters(votes, color), c.nodesCount);
    }
    TwoPeers(w, votes.Keys, c.nodesCount);
  }

  lemma {:induction false} TwoPeers(w: Weights, s: set<PeerID>, n: nat)
    requires w.Keys == {0, 1} && 2 <= n
    ensures Sum(w, s, n) == (if 0 in s then WeightOf(w, 0) else 0) + (if 1 in s then WeightOf(w, 1) else 0)
  {
    if n == 2 {
      assert Sum(w, s, 0) == 0;
      assert Sum(w, s, 1) == if 0 in s then WeightOf(w, 0) else 0;
    } else {
      TwoPeers(w, s, n - 1);
    }
  }
}
