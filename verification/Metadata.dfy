/** What a node records about a stored message (multiverse/models.go), with its bitmap of witnesses. */
module Metadata {
  import opened Messages

  /** The bit of a byte that stands for a peer. */
  function Mask(mod: nat): bv8
    requires mod < 8
  {
    (1 as bv8) << mod
  }

  predicate BitSet(slice: seq<bv8>, peer: nat)
    requires peer / 8 < |slice|
  {
    slice[peer / 8] & Mask(peer % 8) != 0
  }

  function SetBit(slice: seq<bv8>, peer: nat): seq<bv8>
    requires peer / 8 < |slice|
  {
    slice[peer / 8 := slice[peer / 8] | Mask(peer % 8)]
  }

  function SliceLength(nodesCount: nat): nat {
    (nodesCount + 7) / 8
  }

  lemma MaskBits(b: bv8, k: nat, l: nat)
    requires k < 8 && l < 8
    ensures (b | Mask(k)) & Mask(l) != 0 <==> k == l || b & Mask(l) != 0
  {
    MasksDiffer(k, l);
    var x, y := Mask(k), Mask(l);
    assert (b | x) & y == (b & y) | (x & y);
  }

  lemma MasksDiffer(k: nat, l: nat)
    requires k < 8 && l < 8
    ensures Mask(k) & Mask(l) == if k == l then Mask(k) else 0
    ensures Mask(k) != 0
  {
    assert Mask(0) == 1 && Mask(1) == 2 && Mask(2) == 4 && Mask(3) == 8;
    assert Mask(4) == 16 && Mask(5) == 32 && Mask(6) == 64 && Mask(7) == 128;
  }

  /** The peers whose bit is set. */
  ghost function Witnesses(slice: seq<bv8>, nodesCount: nat): set<PeerID>
    requires |slice| == SliceLength(nodesCount)
  {
    set i | 0 <= i < nodesCount && BitSet(slice, i)
  }

  /** Setting the bit of one peer adds that peer and touches no other. */
  lemma SetBitAddsWitness(slice: seq<bv8>, peer: nat, nodesCount: nat)
    requires |slice| == SliceLength(nodesCount) && peer < nodesCount
    ensures Witnesses(SetBit(slice, peer), nodesCount) == Witnesses(slice, nodesCount) + {peer}
  {
    forall i | 0 <= i < nodesCount
      ensures BitSet(SetBit(slice, peer), i) <==> i == peer || BitSet(slice, i)
    {
      MaskBits(slice[peer / 8], peer % 8, i % 8);
    }
  }

  lemma NoWitnesses(slice: seq<bv8>, nodesCount: nat)
    requires |slice| == SliceLength(nodesCount)
    requires forall j :: 0 <= j < |slice| ==> slice[j] == 0
    ensures Witnesses(slice, nodesCount) == {}
  {
  }

  /** The recorded facts as one value; a time stamp counts by whether it is set. */
  datatype Record = Record(
    solid: bool,
    ready: bool,
    inheritedColor: Color,
    weightSlice: seq<bv8>,
    weight: nat,
    confirmed: bool,
    orphaned: bool,
    scheduled: bool)
  {
    predicate Eligible(confEligible: bool) {
      scheduled || (confirmed && confEligible)
    }
  }

  class MessageMetadata {
    const id: MessageID
    const weightSlice: array<bv8>
    var solid: bool
    var ready: bool
    var inheritedColor: Color
    var weight: nat
    var confirmed: bool
    var orphaned: bool
    var scheduled: bool

    function Value(): Record
      reads this, weightSlice
    {
      Record(solid, ready, inheritedColor, weightSlice[..], weight, confirmed, orphaned, scheduled)
    }

    constructor (id: MessageID, nodesCount: nat)
      ensures this.id == id && fresh(weightSlice) && weightSlice.Length == SliceLength(nodesCount)
      ensures Value() == Record(false, false, UNDEFINED, weightSlice[..], 0, false, false, false)
      ensures Witnesses(weightSlice[..], nodesCount) == {}
    {
      this.id := id;
      weightSlice := new bv8[SliceLength(nodesCount)](_ => 0);
      solid, ready, inheritedColor, weight := false, false, UNDEFINED, 0;
      confirmed, orphaned, scheduled := false, false, false;
      new;
      NoWitnesses(weightSlice[..], nodesCount);
    }

    method SetSolid(solid: bool) returns (modified: bool)
      modifies this
      ensures modified == (old(this.solid) != solid)
      ensures Value() == old(Value()).(solid := solid)
    {
      if solid == this.solid {
        return false;
      }
      this.solid := solid;
      modified := true;
    }

    method SetInheritedColor(color: Color) returns (modified: bool)
      modifies this
      ensures modified == (old(inheritedColor) != color)
      ensures Value() == old(Value()).(inheritedColor := color)
    {
      if color == inheritedColor {
        return false;
      }
      inheritedColor := color;
      modified := true;
    }

    method SetWeightByte(index: nat, b: bv8)
      requires index < weightSlice.Length
      modifies weightSlice
      ensures Value() == old(Value()).(weightSlice := old(weightSlice[..])[index := b])
    {
      weightSlice[index] := b;
    }
  }
}
